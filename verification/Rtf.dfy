/**
 The RTF group machine: a stack of saved states, destinations that are skipped,
 Unicode fallback characters that are skipped, and the text collected.
 */
module Rtf {
  import opened Optional
  import opened Utf8
  import opened Decimal

  const MAXIMUM_DEPTH: nat := 256
  const MAXIMUM_WORD_LENGTH: nat := 32
  const MAXIMUM_BINARY_SKIP: nat := 16 * 1024 * 1024
  const MAXIMUM_FALLBACK: nat := 32
  const INT64_MAX: nat := 0x7FFF_FFFF_FFFF_FFFF

  datatype State = State(skipDestination: bool, fallbackCharacters: nat)

  datatype Parser = Parser(
    state: State,
    stack: seq<State>,
    text: Bytes,
    pendingIgnorable: bool,
    skipCharacters: nat,
    limitExceeded: bool,
    failed: bool)
  {
    predicate Stopped() { limitExceeded || failed }
  }

  const INITIAL := Parser(State(false, 1), [], [], false, 0, false, false)

  // ---- Characters and separators ---------------------------------------------------

  predicate IsLetter(c: ByteChar) { 'A' <= c <= 'Z' || 'a' <= c <= 'z' }

  predicate IsHexDigit(c: ByteChar) { IsDigit(c) || 'A' <= c <= 'F' || 'a' <= c <= 'f' }

  function HexValue(c: ByteChar): (n: nat)
    requires IsHexDigit(c)
    ensures n < 16
  {
    if IsDigit(c) then DigitValue(c) else if 'A' <= c <= 'F' then c as int - 55 else c as int - 87
  }

  function AppendScalar(text: Bytes, n: nat): Bytes {
    if IsScalar(n) then text + EncodeScalar(n) else text
  }

  function Last(text: Bytes): Option<ByteChar> { if text == [] then None else Some(text[|text| - 1]) }

  function WordSeparated(text: Bytes): Bytes {
    if Last(text) in [None, Some(' '), Some('\n'), Some('\t')] then text else text + [' ']
  }

  function WithoutTrailingBlanks(text: Bytes): (r: Bytes)
    ensures r <= text
  {
    if Last(text) == Some(' ') || Last(text) == Some('\t') then WithoutTrailingBlanks(text[..|text| - 1]) else text
  }

  function BlockSeparated(text: Bytes): Bytes {
    var trimmed := WithoutTrailingBlanks(text);
    if trimmed == [] || Last(trimmed) == Some('\n') then trimmed else trimmed + ['\n']
  }

  // ---- Control words -----------------------------------------------------------------

  function LetterSpan(s: Bytes): (n: nat)
    ensures n <= |s|
  {
    if s == [] || !IsLetter(s[0]) then 0 else 1 + LetterSpan(s[1..])
  }

  function SignedInteger(s: string): Option<int> {
    if s != "" && s[0] == '-' then
      var n := Parse(s[1..], INT64_MAX + 1);
      if n.Some? then Some(0 - n.value as int) else None
    else
      var n := Parse(s, INT64_MAX);
      if n.Some? then Some(n.value as int) else None
  }

  datatype Control = Control(word: Bytes, parameter: Option<int>, size: nat)

  function ParameterSpan(s: Bytes): (n: nat)
    ensures n <= |s|
  {
    if s != [] && s[0] == '-' then 1 + DigitSpan(s[1..]) else DigitSpan(s)
  }

  /** The control word after a backslash: letters, an optional number, one space. */
  function ControlAt(s: Bytes): (c: Control)
    ensures c.size <= |s| && (s != [] && IsLetter(s[0]) ==> c.size > 0)
  {
    var n := LetterSpan(s);
    var m := n + ParameterSpan(s[n..]);
    Control(s[..n], SignedInteger(s[n..m]), if m < |s| && s[m] == ' ' then m + 1 else m)
  }

  datatype Word =
    Destination | Paragraph | Text(bytes: Bytes) | Scalar(n: nat) | FallbackCount | Unicode | Binary | Unknown

  function WordKind(word: Bytes): Word {
    if word in ["fonttbl", "colortbl", "stylesheet", "info", "pict", "object", "data", "nonshppict", "shp", "header",
      "footer"] then Destination
    else if word == "par" || word == "line" then Paragraph
    else if word == "tab" then Text(['\t'])
    else if word == "emdash" then Scalar(0x2014)
    else if word == "endash" then Scalar(0x2013)
    else if word == "bullet" then Scalar(0x2022)
    else if word == "lquote" || word == "rquote" then Text(['\''])
    else if word == "ldblquote" || word == "rdblquote" then Text(['"'])
    else if word == "uc" then FallbackCount
    else if word == "u" then Unicode
    else if word == "bin" then Binary
    else Unknown
  }

  /** A negative parameter is a 16-bit value; the cast keeps 32 bits. */
  function UnicodeParameter(parameter: int): nat {
    (if parameter < 0 then parameter + 65536 else parameter) % 0x1_0000_0000
  }

  function AfterWord(p: Parser, word: Bytes, parameter: Option<int>): Parser {
    if |word| > MAXIMUM_WORD_LENGTH then p.(limitExceeded := true)
    else if p.pendingIgnorable || WordKind(word).Destination? then
      p.(state := p.state.(skipDestination := true), pendingIgnorable := false)
    else if p.state.skipDestination then p
    else
      match WordKind(word)
      case Paragraph => p.(text := BlockSeparated(p.text))
      case Text(bytes) => p.(text := p.text + bytes)
      case Scalar(n) => p.(text := AppendScalar(p.text, n))
      case FallbackCount =>
        if parameter.Some? && 0 <= parameter.value <= MAXIMUM_FALLBACK then
          p.(state := p.state.(fallbackCharacters := parameter.value))
        else p
      case Unicode =>
        if parameter.None? then p.(failed := true)
        else p.(text := AppendScalar(p.text, UnicodeParameter(parameter.value)),
          skipCharacters := p.state.fallbackCharacters)
      case Binary =>
        if parameter.None? || parameter.value < 0 || parameter.value > MAXIMUM_BINARY_SKIP
          then p.(limitExceeded := true)
        else p.(skipCharacters := parameter.value)
      case _ => p
  }

  datatype Stepped = Stepped(p: Parser, size: nat)

  /** A control symbol: `s` starts after the backslash, and holds no letter there. */
  function AfterSymbol(p: Parser, s: Bytes): (r: Stepped)
    requires s != []
    ensures 0 < r.size <= |s|
  {
    if s[0] == '*' then Stepped(p.(pendingIgnorable := true), 1)
    else if p.state.skipDestination then Stepped(p, 1)
    else if s[0] == '\\' || s[0] == '{' || s[0] == '}' then Stepped(p.(text := p.text + [s[0]]), 1)
    else if s[0] == '~' then Stepped(p.(text := WordSeparated(p.text)), 1)
    else if s[0] == '_' then Stepped(p.(text := p.text + ['-']), 1)
    else if s[0] == '\'' then
      if |s| < 3 || !IsHexDigit(s[1]) || !IsHexDigit(s[2]) then Stepped(p.(failed := true), 1)
      else Stepped(p.(text := AppendScalar(p.text, HexValue(s[1]) * 16 + HexValue(s[2]))), 3)
    else Stepped(p, 1)
  }

  /** How many bytes one fallback character takes: a byte, or one escape. */
  function FallbackSize(s: Bytes): (n: nat)
    requires s != []
    ensures 0 < n <= |s|
  {
    if s[0] != '\\' || |s| == 1 then 1
    else if s[1] == '\'' && |s| > 3 && IsHexDigit(s[2]) && IsHexDigit(s[3]) then 4
    else if !IsLetter(s[1]) then 2
    else 1 + ControlAt(s[1..]).size
  }

  // ---- The machine --------------------------------------------------------------------

  /** One turn of the parser's loop on what is left of the line. */
  function Step(p: Parser, s: Bytes): (r: Stepped)
    requires s != []
    ensures 0 < r.size <= |s|
  {
    if p.skipCharacters > 0 then Stepped(p.(skipCharacters := p.skipCharacters - 1), FallbackSize(s))
    else if s[0] == '{' then
      if |p.stack| >= MAXIMUM_DEPTH then Stepped(p.(limitExceeded := true), 1)
      else Stepped(p.(stack := p.stack + [p.state]), 1)
    else if s[0] == '}' then
      if p.stack == [] then Stepped(p.(failed := true), 1)
      else Stepped(p.(state := p.stack[|p.stack| - 1], stack := p.stack[..|p.stack| - 1], pendingIgnorable := false), 1)
    else if s[0] == '\\' then
      if |s| == 1 then Stepped(p, 1)
      else if !IsLetter(s[1]) then
        var r := AfterSymbol(p, s[1..]);
        r.(size := r.size + 1)
      else
        var c := ControlAt(s[1..]);
        Stepped(AfterWord(p, c.word, c.parameter), 1 + c.size)
    else
      Stepped(if p.state.skipDestination then p else p.(text := p.text + [s[0]]), 1)
  }

  function Run(p: Parser, s: Bytes): Parser
    decreases |s|
  {
    if s == [] || p.Stopped() then p else Run(Step(p, s).p, s[Step(p, s).size..])
  }

  /** A document, line by line; parsing stops for good at the first failure. */
  function RunLines(p: Parser, lines: seq<Bytes>): Parser
    decreases |lines|
  {
    if lines == [] || p.Stopped() then p else RunLines(Run(p, lines[0]), lines[1..])
  }

  method SkipLetters(line: Bytes, offset: nat) returns (end: nat)
    requires offset <= |line|
    ensures end == offset + LetterSpan(line[offset..])
  {
    end := offset;
    while end < |line| && IsLetter(line[end])
      invariant offset <= end <= |line| && LetterSpan(line[offset..]) == end - offset + LetterSpan(line[end..])
    {
      assert line[end..][1..] == line[end + 1..];
      end := end + 1;
    }
  }

  method SkipDigits(line: Bytes, offset: nat) returns (end: nat)
    requires offset <= |line|
    ensures end == offset + DigitSpan(line[offset..])
  {
    hide DigitSpan;
    end := offset;
    while end < |line| && IsDigit(line[end])
      invariant offset <= end <= |line| && DigitSpan(line[offset..]) == end - offset + DigitSpan(line[end..])
    {
      DigitSpanStep(line[end..]);
      assert line[end..][1..] == line[end + 1..];
      end := end + 1;
    }
    DigitSpanStep(line[end..]);
  }

  method SkipParameter(line: Bytes, offset: nat) returns (end: nat)
    requires offset <= |line|
    ensures end == offset + ParameterSpan(line[offset..])
  {
    hide DigitSpan;
    end := offset;
    if end < |line| && line[end] == '-' {
      end := end + 1;
      assert line[offset..][1..] == line[end..];
    }
    end := SkipDigits(line, end);
  }

  method ReadControl(line: Bytes, offset: nat) returns (c: Control)
    requires offset <= |line|
    ensures c == ControlAt(line[offset..])
  {
    hide SignedInteger, ParameterSpan, LetterSpan;
    ghost var s := line[offset..];
    var wordEnd := SkipLetters(line, offset);
    assert s[wordEnd - offset..] == line[wordEnd..];
    var end := SkipParameter(line, wordEnd);
    assert s[..wordEnd - offset] == line[offset..wordEnd];
    assert s[wordEnd - offset..end - offset] == line[wordEnd..end];
    var parameter := SignedInteger(line[wordEnd..end]);
    var next := if end < |line| && line[end] == ' ' then end + 1 else end;
    c := Control(line[offset..wordEnd], parameter, next - offset);
  }

  lemma DigitSpanStep(s: Bytes)
    ensures DigitSpan(s) == if s == [] || !IsDigit(s[0]) then 0 else 1 + DigitSpan(s[1..])
  {}

  class RtfParser {
    var state: State
    var stack: seq<State>
    var text: Bytes
    var pendingIgnorable: bool
    var skipCharacters: nat
    var limitExceeded: bool
    var failed: bool

    function Value(): Parser
      reads this
    {
      Parser(state, stack, text, pendingIgnorable, skipCharacters, limitExceeded, failed)
    }

    constructor ()
      ensures Value() == INITIAL
    {
      state := State(false, 1);
      stack := [];
      text := [];
      pendingIgnorable := false;
      skipCharacters := 0;
      limitExceeded := false;
      failed := false;
    }

    method HandleControlSymbol(line: Bytes, offset: nat) returns (next: nat)
      requires offset < |line|
      modifies this
      ensures Value() == AfterSymbol(old(Value()), line[offset..]).p
      ensures next == offset + AfterSymbol(old(Value()), line[offset..]).size
    {
      hide EncodeScalar, IsScalar;
      var symbol := line[offset];
      next := offset + 1;
      if symbol == '*' {
        pendingIgnorable := true;
        return;
      }
      if state.skipDestination {
        return;
      }
      match symbol
      case '\\' => text := text + [symbol];
      case '{' => text := text + [symbol];
      case '}' => text := text + [symbol];
      case '~' => text := WordSeparated(text);
      case '_' => text := text + ['-'];
      case '\'' =>
        if next + 1 >= |line| || !IsHexDigit(line[next]) || !IsHexDigit(line[next + 1]) {
          failed := true;
          return;
        }
        text := AppendScalar(text, HexValue(line[next]) * 16 + HexValue(line[next + 1]));
        next := next + 2;
      case _ =>
    }

    method SkipFallbackCharacter(line: Bytes, offset: nat) returns (next: nat)
      requires offset < |line| && skipCharacters > 0
      modifies this
      ensures Value() == old(Value()).(skipCharacters := old(skipCharacters) - 1)
      ensures next == offset + FallbackSize(line[offset..])
    {
      hide ControlAt;
      skipCharacters := skipCharacters - 1;
      if line[offset] != '\\' {
        return offset + 1;
      }
      next := offset + 1;
      ghost var rest := line[offset..];
      assert rest[1..] == line[next..];
      if next == |line| {
        return;
      }
      if line[next] == '\'' && next + 2 < |line| && IsHexDigit(line[next + 1]) && IsHexDigit(line[next + 2]) {
        next := next + 3;
        return;
      }
      if !IsLetter(line[next]) {
        next := next + 1;
        return;
      }
      var c := ReadControl(line, next);
      next := next + c.size;
    }

    method HandleControlWord(word: Bytes, parameter: Option<int>)
      modifies this
      ensures Value() == AfterWord(old(Value()), word, parameter)
    {
      hide WordKind, EncodeScalar, IsScalar;
      if |word| > MAXIMUM_WORD_LENGTH {
        limitExceeded := true;
        return;
      }
      var kind := WordKind(word);
      if pendingIgnorable || kind.Destination? {
        state := state.(skipDestination := true);
        pendingIgnorable := false;
        return;
      }
      if state.skipDestination {
        return;
      }
      match kind
      case Paragraph => text := BlockSeparated(text);
      case Text(bytes) => text := text + bytes;
      case Scalar(n) => text := AppendScalar(text, n);
      case FallbackCount =>
        if parameter.Some? && 0 <= parameter.value <= MAXIMUM_FALLBACK {
          state := state.(fallbackCharacters := parameter.value);
        }
      case Unicode =>
        if parameter.None? {
          failed := true;
          return;
        }
        text := AppendScalar(text, UnicodeParameter(parameter.value));
        skipCharacters := state.fallbackCharacters;
      case Binary =>
        if parameter.None? || parameter.value < 0 || parameter.value > MAXIMUM_BINARY_SKIP {
          limitExceeded := true;
          return;
        }
        skipCharacters := parameter.value;
      case _ =>
    }

    method ParseLine(line: Bytes)
      modifies this
      ensures Value() == Run(old(Value()), line)
    {
      hide Step, Run;
      var offset: nat := 0;
      assert line[0..] == line;
      while offset < |line| && !limitExceeded && !failed
        invariant offset <= |line| && Run(old(Value()), line) == Run(Value(), line[offset..])
      {
        ghost var rest := line[offset..];
        RunUnfolds(Value(), rest);
        assert rest[Step(Value(), rest).size..] == line[offset + Step(Value(), rest).size..];
        offset := ParseNext(line, offset);
      }
      RunStops(Value(), line[offset..]);
    }

    /** One turn of the loop. */
    method ParseNext(line: Bytes, offset: nat) returns (next: nat)
      requires offset < |line| && !limitExceeded && !failed
      modifies this
      ensures Value() == Step(old(Value()), line[offset..]).p
      ensures next == offset + Step(old(Value()), line[offset..]).size
    {
      hide AfterSymbol, AfterWord, ControlAt, FallbackSize;
      if skipCharacters > 0 {
        next := SkipFallbackCharacter(line, offset);
        return;
      }
      var character := line[offset];
      next := offset + 1;
      ghost var rest := line[offset..];
      assert rest[1..] == line[next..];
      if character == '{' {
        if |stack| >= MAXIMUM_DEPTH {
          limitExceeded := true;
          return;
        }
        stack := stack + [state];
      } else if character == '}' {
        if stack == [] {
          failed := true;
          return;
        }
        state := stack[|stack| - 1];
        stack := stack[..|stack| - 1];
        pendingIgnorable := false;
      } else if character == '\\' {
        if next == |line| {
          return;
        }
        if !IsLetter(line[next]) {
          next := HandleControlSymbol(line, next);
        } else {
          var c := ReadControl(line, next);
          next := next + c.size;
          HandleControlWord(c.word, c.parameter);
        }
      } else if !state.skipDestination {
        text := text + [character];
      }
    }
  }

  lemma RunUnfolds(p: Parser, s: Bytes)
    requires s != [] && !p.Stopped()
    ensures Run(p, s) == Run(Step(p, s).p, s[Step(p, s).size..])
  {}

  lemma RunStops(p: Parser, s: Bytes)
    ensures s == [] || p.Stopped() ==> Run(p, s) == p
  {}

  // ---- What every run keeps ------------------------------------------------------------------

  /** Skipping is monotone from the outermost saved state to the current one; depth
      and fallback counts are bounded. */
  ghost predicate Inv(p: Parser) {
    && |p.stack| <= MAXIMUM_DEPTH
    && (forall i :: 0 <= i < |p.stack| ==> p.stack[i].fallbackCharacters <= MAXIMUM_FALLBACK)
    && p.state.fallbackCharacters <= MAXIMUM_FALLBACK
    && (forall i, j :: 0 <= i < j < |p.stack| && p.stack[i].skipDestination ==> p.stack[j].skipDestination)
    && (forall i :: 0 <= i < |p.stack| && p.stack[i].skipDestination ==> p.state.skipDestination)
  }

  /** How a control word or symbol may change the state: skipping only begins. */
  lemma WordsOnlyBeginSkipping(p: Parser, word: Bytes, parameter: Option<int>)
    ensures Kept(p, AfterWord(p, word, parameter))
  {
    hide WordKind, BlockSeparated, AppendScalar;
  }

  lemma SymbolsKeepState(p: Parser, s: Bytes)
    requires s != []
    ensures var q := AfterSymbol(p, s).p;
      q.stack == p.stack && q.state == p.state && q.skipCharacters == p.skipCharacters
        && (p.state.skipDestination ==> q.text == p.text)
  {
    hide WordSeparated, AppendScalar;
  }

  ghost predicate Kept(p: Parser, q: Parser) {
    && q.stack == p.stack && (p.state.skipDestination ==> q.state.skipDestination && q.text == p.text)
    && (p.state.fallbackCharacters <= MAXIMUM_FALLBACK ==> q.state.fallbackCharacters <= MAXIMUM_FALLBACK)
  }

  ghost predicate Pushed(p: Parser, q: Parser) {
    |p.stack| < MAXIMUM_DEPTH && q.stack == p.stack + [p.state] && q.state == p.state && q.text == p.text
  }

  ghost predicate Popped(p: Parser, q: Parser) {
    && p.stack != [] && q.stack == p.stack[..|p.stack| - 1] && q.state == p.stack[|p.stack| - 1] && q.text == p.text
  }

  /** The three ways a step can treat the stack and the text. */
  lemma StepMoves(p: Parser, s: Bytes)
    requires s != []
    ensures Kept(p, Step(p, s).p) || Pushed(p, Step(p, s).p) || Popped(p, Step(p, s).p)
  {
    hide AfterWord, AfterSymbol, ControlAt, FallbackSize;
    if |s| > 1 {
      SymbolsKeepState(p, s[1..]);
      WordsOnlyBeginSkipping(p, ControlAt(s[1..]).word, ControlAt(s[1..]).parameter);
    }
  }

  lemma StepKeepsInv(p: Parser, s: Bytes)
    requires Inv(p) && s != []
    ensures Inv(Step(p, s).p)
  {
    hide Step;
    StepMoves(p, s);
  }

  lemma {:induction false} RunKeepsInv(p: Parser, s: Bytes)
    requires Inv(p)
    ensures Inv(Run(p, s))
    decreases |s|
  {
    hide Inv, Step;
    if s != [] && !p.Stopped() {
      StepKeepsInv(p, s);
      RunKeepsInv(Step(p, s).p, s[Step(p, s).size..]);
    }
  }

  /** In every state that parsing any lines can reach. */
  lemma {:induction false} DocumentKeepsInv(p: Parser, lines: seq<Bytes>)
    requires Inv(p)
    ensures Inv(RunLines(p, lines))
    decreases |lines|
  {
    hide Inv, Run;
    if lines != [] && !p.Stopped() {
      RunKeepsInv(p, lines[0]);
      DocumentKeepsInv(Run(p, lines[0]), lines[1..]);
    }
  }

  /** Every state that a document can bring the parser to: skipping is monotone along the
      stack and the current state, depth and fallback counts are within their bounds. */
  lemma EveryReachableState(lines: seq<Bytes>)
    ensures Inv(RunLines(INITIAL, lines))
    ensures |RunLines(INITIAL, lines).stack| <= 256 && RunLines(INITIAL, lines).state.fallbackCharacters <= 32
  {
    hide Run;
    DocumentKeepsInv(INITIAL, lines);
  }

  // ---- Groups ----------------------------------------------------------------------------------

  /** Where the parser stands in a document: what is left of the line, and the lines to come. */
  datatype Position = Position(p: Parser, line: Bytes, rest: seq<Bytes>) {
    /** The next byte acts as the given brace. */
    predicate ActsAs(brace: char) {
      !p.Stopped() && p.skipCharacters == 0 && line != [] && line[0] == brace
    }
  }

  /** One turn of the parser's loop, or the next line. */
  function Turn(c: Position): Position {
    if c.p.Stopped() then c
    else if c.line != [] then Position(Step(c.p, c.line).p, c.line[Step(c.p, c.line).size..], c.rest)
    else if c.rest != [] then Position(c.p, c.rest[0], c.rest[1..])
    else c
  }

  function Turns(c: Position, n: nat): Position
    decreases n
  {
    if n == 0 then c else Turns(Turn(c), n - 1)
  }

  /** What parsing comes to from there. */
  function Outcome(c: Position): Parser { RunLines(Run(c.p, c.line), c.rest) }

  lemma TurnKeepsOutcome(c: Position)
    ensures Outcome(Turn(c)) == Outcome(c)
  {
    hide Step;
    RunStops(c.p, c.line);
  }

  /** The turns lead to what parsing the lines gives. */
  lemma {:induction false} TurnsReachOutcome(c: Position) returns (n: nat)
    ensures Turns(c, n).p == Outcome(c)
    decreases |c.rest|, |c.line|
  {
    hide Step, Run;
    RunStops(c.p, c.line);
    if c.p.Stopped() || (c.line == [] && c.rest == []) {
      n := 0;
    } else {
      TurnKeepsOutcome(c);
      n := TurnsReachOutcome(Turn(c));
      n := n + 1;
    }
  }

  /** For `n` turns the depth does not fall below `depth`. */
  ghost predicate Inside(c: Position, n: nat, depth: nat) {
    forall k: nat :: k <= n ==> |Turns(c, k).p.stack| >= depth
  }

  /** The group at `depth` is being skipped. */
  ghost predicate SkippingSince(p: Parser, depth: nat) {
    |p.stack| >= depth && if |p.stack| == depth then p.state.skipDestination else p.stack[depth].skipDestination
  }

  /** The saved states outside the group at `depth` are the same. */
  ghost predicate SameOutside(p: Parser, q: Parser, depth: nat) {
    |p.stack| >= depth && |q.stack| >= depth && forall i :: 0 <= i < depth ==> q.stack[i] == p.stack[i]
  }

  /** Below a depth, nothing of the stack moves until the depth is left. */
  lemma StepInsideGroup(p: Parser, s: Bytes, depth: nat)
    requires s != [] && Inv(p) && |p.stack| >= depth && |Step(p, s).p.stack| >= depth
    ensures SameOutside(p, Step(p, s).p, depth)
    ensures SkippingSince(p, depth) ==> SkippingSince(Step(p, s).p, depth) && Step(p, s).p.text == p.text
  {
    hide Step;
    StepMoves(p, s);
  }

  lemma TurnInsideGroup(c: Position, depth: nat)
    requires Inv(c.p) && |c.p.stack| >= depth && |Turn(c).p.stack| >= depth
    ensures Inv(Turn(c).p) && SameOutside(c.p, Turn(c).p, depth)
    ensures SkippingSince(c.p, depth) ==> SkippingSince(Turn(c).p, depth) && Turn(c).p.text == c.p.text
  {
    hide Step, Inv, SkippingSince;
    if !c.p.Stopped() && c.line != [] {
      StepKeepsInv(c.p, c.line);
      StepInsideGroup(c.p, c.line, depth);
    }
  }

  /** Skipped groups are invisible: while the depth stays, over any number of lines, the
      text does not change at all, whatever is in the group; and the saved states outside
      do not change. */
  lemma {:induction false} SkippedTextIsInvisible(c: Position, n: nat, depth: nat)
    requires Inv(c.p) && Inside(c, n, depth)
    ensures Inv(Turns(c, n).p) && SameOutside(c.p, Turns(c, n).p, depth)
    ensures SkippingSince(c.p, depth) ==> SkippingSince(Turns(c, n).p, depth) && Turns(c, n).p.text == c.p.text
    decreases n
  {
    hide Turn, Inv, SkippingSince;
    assert |Turns(c, 0).p.stack| >= depth;
    if n > 0 {
      assert |Turns(c, 1).p.stack| >= depth by { assert Turns(Turn(c), 0) == Turn(c); }
      TurnInsideGroup(c, depth);
      forall k: nat | k <= n - 1 ensures |Turns(Turn(c), k).p.stack| >= depth {
        assert Turns(c, k + 1) == Turns(Turn(c), k);
      }
      SkippedTextIsInvisible(Turn(c), n - 1, depth);
    }
  }

  /** A document that never leaves a skipped group adds nothing to the text. */
  lemma SkippedLinesAreInvisible(p: Parser, lines: seq<Bytes>, depth: nat)
    requires Inv(p) && forall n :: Inside(Position(p, [], lines), n, depth)
    ensures SameOutside(p, RunLines(p, lines), depth)
    ensures SkippingSince(p, depth) ==>
      SkippingSince(RunLines(p, lines), depth) && RunLines(p, lines).text == p.text
  {
    hide Inv, SkippingSince, SameOutside, Inside, Turns;
    var c := Position(p, [], lines);
    var n := TurnsReachOutcome(c);
    SkippedTextIsInvisible(c, n, depth);
  }

  /** Closing a group restores the state of its opening, whatever happened inside and
      however many lines it took; and a group inside skipped text adds nothing. */
  lemma GroupRestoresState(c: Position, n: nat)
    requires Inv(c.p) && c.ActsAs('{') && |c.p.stack| < MAXIMUM_DEPTH
    requires var end := Turns(Turn(c), n);
      Inside(Turn(c), n, |c.p.stack| + 1) && |end.p.stack| == |c.p.stack| + 1 && end.ActsAs('}')
    ensures var after := Turn(Turns(Turn(c), n)).p;
      && after.state == c.p.state && after.stack == c.p.stack && !after.pendingIgnorable
      && (c.p.state.skipDestination ==> after.text == c.p.text)
  {
    hide Turns, Inside;
    var inside, depth := Turn(c), |c.p.stack| + 1;
    assert inside.p == c.p.(stack := c.p.stack + [c.p.state]);
    SkippedTextIsInvisible(inside, n, depth);
    var end := Turns(inside, n);
    assert end.p.stack == inside.p.stack;
    assert end.p.stack[..|c.p.stack|] == c.p.stack;
  }

  lemma {:induction false} TurnsAddUp(c: Position, m: nat, n: nat)
    ensures Turns(c, m + n) == Turns(Turns(c, m), n)
    decreases m
  {
    hide Turn;
    if m > 0 { TurnsAddUp(Turn(c), m - 1, n); }
  }

  /** A group that begins to skip after `m` turns, as a font table does, adds nothing from
      there to its closing brace, on whatever line that is, and then all is as it was. */
  lemma SkippedGroupLeavesNoTrace(c: Position, m: nat, n: nat)
    requires Inv(c.p) && c.ActsAs('{') && |c.p.stack| < MAXIMUM_DEPTH
    requires Inside(Turn(c), m + n, |c.p.stack| + 1)
    requires var begun, end := Turns(Turn(c), m), Turns(Turn(c), m + n);
      SkippingSince(begun.p, |c.p.stack| + 1) && |end.p.stack| == |c.p.stack| + 1 && end.ActsAs('}')
    ensures var after := Turn(Turns(Turn(c), m + n)).p;
      && after.state == c.p.state && after.stack == c.p.stack && after.text == Turns(Turn(c), m).p.text
  {
    hide Turns, Inv, SkippingSince, SameOutside;
    var inside, depth := Turn(c), |c.p.stack| + 1;
    GroupRestoresState(c, m + n);
    StepKeepsInv(c.p, c.line);
    assert Inside(inside, m, depth);
    SkippedTextIsInvisible(inside, m, depth);
    var begun := Turns(inside, m);
    TurnsAddUp(inside, m, n);
    forall k: nat | k <= n ensures |Turns(begun, k).p.stack| >= depth {
      TurnsAddUp(inside, m, k);
    }
    SkippedTextIsInvisible(begun, n, depth);
  }

  const INFO: Bytes := ['i', 'n', 'f', 'o']

  /** Such a group: an `info` group on two lines. */
  lemma InfoOnTwoLines()
    ensures var c := Position(INITIAL, ['{', '\\'] + INFO, [['x', '}']]);
      && c.ActsAs('{') && Inside(Turn(c), 3, 1)
      && SkippingSince(Turns(Turn(c), 1).p, 1) && Turns(Turn(c), 3).ActsAs('}')
  {
    hide ControlAt, WordKind, AfterSymbol, FallbackSize, Turns;
    var c := Position(INITIAL, ['{', '\\'] + INFO, [['x', '}']]);
    var open := Turn(c);
    assert open.line == ['\\'] + INFO && open.line[1..] == INFO;
    ReadsInfo();
    var skipping := Turn(open);
    assert skipping == Position(open.p.(state := open.p.state.(skipDestination := true)), [], c.rest);
    var next := Turn(skipping);
    assert next.line[1..] == ['}'];
    assert Turn(next) == Position(skipping.p, ['}'], []);
    ThreeTurns(open);
  }

  lemma ThreeTurns(c: Position)
    ensures Turns(c, 0) == c && Turns(c, 1) == Turn(c)
    ensures Turns(c, 2) == Turn(Turn(c)) && Turns(c, 3) == Turn(Turn(Turn(c)))
  {
    hide Turn;
    assert Turns(Turn(Turn(Turn(c))), 0) == Turn(Turn(Turn(c)));
    assert Turns(Turn(Turn(c)), 1) == Turn(Turn(Turn(c)));
    assert Turns(Turn(c), 2) == Turn(Turn(Turn(c)));
  }

  lemma ReadsInfo()
    ensures ControlAt(INFO) == Control(INFO, None, |INFO|)
    ensures WordKind(INFO) == Destination
  {
    assert INFO[1..] == ['n', 'f', 'o'] && INFO[1..][1..] == ['f', 'o'] && INFO[1..][1..][1..] == ['o'];
    assert LetterSpan(['o']) == 1 && LetterSpan(['f', 'o']) == 2 && LetterSpan(['n', 'f', 'o']) == 3;
    assert LetterSpan(INFO) == 4 && ParameterSpan([]) == 0 && INFO[4..] == [];
  }

  /** Exactly when a brace acts: an opening one opens a group if no fallback character is
      due and the depth allows it, a closing one closes the group if none is due and
      there is one.  Otherwise the brace is text to be skipped, or an error. */
  lemma BracesActExactlyWhen(p: Parser, s: Bytes)
    ensures Step(p, ['{'] + s).p.stack == p.stack + [p.state] <==> p.skipCharacters == 0 && |p.stack| < MAXIMUM_DEPTH
    ensures p.stack != [] ==>
      (Step(p, ['}'] + s).p.stack == p.stack[..|p.stack| - 1] <==> p.skipCharacters == 0)
  {
    assert p.stack + [p.state] != p.stack;
    if p.stack != [] { assert |p.stack[..|p.stack| - 1]| < |p.stack|; }
  }
}
