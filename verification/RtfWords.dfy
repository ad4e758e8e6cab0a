/** What the control words and symbols of RTF mean to the parser, one law for each. */
module RtfWords {
  import opened Optional
  import opened Utf8
  import opened Decimal
  import opened Rtf
  import opened RtfWriting

  /** A control word with its number, if it has one, and the blank that ends it. */
  function WordThen(word: Bytes, number: Bytes, rest: Bytes): Bytes { ['\\'] + (word + (number + ([' '] + rest))) }

  predicate IsWord(word: Bytes) {
    0 < |word| <= MAXIMUM_WORD_LENGTH && forall i :: 0 <= i < |word| ==> IsLetter(word[i])
  }

  lemma {:induction false} LettersSpan(word: Bytes, rest: Bytes)
    requires forall i :: 0 <= i < |word| ==> IsLetter(word[i])
    requires rest != [] && !IsLetter(rest[0])
    ensures LetterSpan(word + rest) == |word|
  {
    if word == [] {
      assert word + rest == rest;
    } else {
      LettersSpan(word[1..], rest);
      assert (word + rest)[0] == word[0] && (word + rest)[1..] == word[1..] + rest;
    }
  }

  lemma WordControl(word: Bytes, number: Bytes, rest: Bytes)
    requires IsWord(word) && (number != [] ==> !IsLetter(number[0]))
    requires ParameterSpan(number + ([' '] + rest)) == |number|
    ensures ControlAt(word + (number + ([' '] + rest)))
      == Control(word, SignedInteger(number), |word| + |number| + 1)
  {
    hide LetterSpan, ParameterSpan, SignedInteger;
    var tail := number + ([' '] + rest);
    var text := word + tail;
    assert tail[0] == if number == [] then ' ' else number[0];
    LettersSpan(word, tail);
    assert text[|word|..] == tail && text[..|word|] == word;
    assert text[|word|..|word| + |number|] == number;
    assert text[|word| + |number|] == tail[|number|] == ' ';
  }

  /** A word is taken with its number and its blank, and does what it means. */
  lemma WordStep(p: Parser, word: Bytes, number: Bytes, rest: Bytes)
    requires !p.Stopped() && p.skipCharacters == 0 && IsWord(word) && (number != [] ==> !IsLetter(number[0]))
    requires ParameterSpan(number + ([' '] + rest)) == |number|
    ensures Run(p, WordThen(word, number, rest)) == Run(AfterWord(p, word, SignedInteger(number)), rest)
  {
    hide Run, AfterWord, ControlAt, ParameterSpan, SignedInteger, FallbackSize;
    var whole, inner := WordThen(word, number, rest), word + (number + ([' '] + rest));
    WordControl(word, number, rest);
    assert whole[1..] == inner && inner[0] == word[0];
    RunUnfolds(p, whole);
    assert whole[|word| + |number| + 2..] == rest;
  }

  lemma NoNumber(rest: Bytes)
    ensures ParameterSpan([] + ([' '] + rest)) == 0 && SignedInteger([]) == None
  {
    assert [] + ([' '] + rest) == [' '] + rest;
  }

  // ---- Characters by name ------------------------------------------------------------------

  /** The special characters of the RTF specification that the parser knows. */
  function NamedCharacter(word: Bytes): Option<CodePoint> {
    if word == "tab" then Some(0x9)
    else if word == "emdash" then Some(0x2014)
    else if word == "endash" then Some(0x2013)
    else if word == "bullet" then Some(0x2022)
    else if word == "lquote" then Some(0x2018)
    else if word == "rquote" then Some(0x2019)
    else if word == "ldblquote" then Some(0x201C)
    else if word == "rdblquote" then Some(0x201D)
    else None
  }

  /** Quotation marks lose their direction. */
  function Shown(n: CodePoint): CodePoint {
    if n == 0x2018 || n == 0x2019 then 0x27 else if n == 0x201C || n == 0x201D then 0x22 else n
  }

  /** Each of these words is read as its character, quotation marks as those of ASCII. */
  lemma NamedCharactersRead(p: Parser, word: Bytes, rest: Bytes)
    requires ReadsText(p) && NamedCharacter(word).Some?
    ensures Run(p, WordThen(word, [], rest))
      == Run(p.(text := p.text + EncodeScalar(Shown(NamedCharacter(word).value))), rest)
  {
    hide Run, ParameterSpan, SignedInteger, WordThen;
    NoNumber(rest);
    NoDestination(word);
    KnownWords(p, word);
    WordStep(p, word, [], rest);
  }

  lemma KnownWords(p: Parser, word: Bytes)
    requires ReadsText(p) && NamedCharacter(word).Some?
    ensures AfterWord(p, word, None) == p.(text := p.text + EncodeScalar(Shown(NamedCharacter(word).value)))
  {
    hide EncodeScalar, WordKind;
    NoDestination(word);
    NamedKind(word);
    assert EncodeScalar(0x9) == ['\t'] && EncodeScalar(0x27) == ['\''] && EncodeScalar(0x22) == ['"'] by {
      AsciiBytes();
    }
  }

  lemma AsciiBytes()
    ensures EncodeScalar(0x9) == ['\t'] && EncodeScalar(0x27) == ['\''] && EncodeScalar(0x22) == ['"']
  {}

  lemma NoDestination(word: Bytes)
    requires NamedCharacter(word).Some?
    ensures IsWord(word) && word !in ["fonttbl", "colortbl", "stylesheet", "info", "pict", "object", "data",
      "nonshppict", "shp", "header", "footer"]
  {
    assert word[0] in ['t', 'e', 'b', 'l', 'r'];
    assert "fonttbl"[0] == "footer"[0] == 'f' && "colortbl"[0] == 'c' && "stylesheet"[0] == "shp"[0] == 's';
    assert "info"[0] == 'i' && "pict"[0] == 'p' && "object"[0] == 'o' && "data"[0] == 'd';
    assert "nonshppict"[0] == 'n' && "header"[0] == 'h';
  }

  lemma NamedKind(word: Bytes)
    requires NamedCharacter(word).Some?
    requires word !in ["fonttbl", "colortbl", "stylesheet", "info", "pict", "object", "data", "nonshppict", "shp",
      "header", "footer"]
    ensures WordKind(word) == match Shown(NamedCharacter(word).value)
      case 0x9 => Text(['\t'])
      case 0x27 => Text(['\''])
      case 0x22 => Text(['"'])
      case n => Scalar(n)
  {
    assert |"par"| == 3 && "par"[0] == 'p' && |"line"| == 4;
  }

  // ---- Destinations ------------------------------------------------------------------------

  /** The groups whose contents are not text of the document. */
  const DESTINATIONS: set<string> := {
    "fonttbl", "colortbl", "stylesheet", "info", "pict", "object", "data", "nonshppict", "shp", "header", "footer"}

  /** Skipping begins exactly at one of these words, or at any word after `\*`. */
  lemma SkipsExactlyAt(p: Parser, word: Bytes, parameter: Option<int>)
    requires |word| <= MAXIMUM_WORD_LENGTH
    ensures AfterWord(p, word, parameter).state.skipDestination
      <==> p.state.skipDestination || p.pendingIgnorable || word in DESTINATIONS
  {
    hide AppendScalar, BlockSeparated;
  }

  /** `\*` makes any word begin a skipped destination. */
  lemma StarredWordSkips(p: Parser, word: Bytes, rest: Bytes)
    requires ReadsText(p) && IsWord(word)
    ensures Run(p, ['\\', '*'] + WordThen(word, [], rest)) == Run(p.(state := p.state.(skipDestination := true)), rest)
  {
    hide Run, ParameterSpan, SignedInteger, WordThen, WordKind;
    var starred := p.(pendingIgnorable := true);
    var whole, tail := ['\\', '*'] + WordThen(word, [], rest), WordThen(word, [], rest);
    assert whole[1..] == ['*'] + tail && whole[2..] == tail;
    StarStep(p, whole);
    NoNumber(rest);
    WordStep(starred, word, [], rest);
    assert AfterWord(starred, word, None) == p.(state := p.state.(skipDestination := true));
  }

  lemma StarStep(p: Parser, whole: Bytes)
    requires ReadsText(p) && |whole| >= 2 && whole[0] == '\\' && whole[1] == '*'
    ensures Run(p, whole) == Run(p.(pendingIgnorable := true), whole[2..])
  {
    hide Run, AfterWord, ControlAt, FallbackSize;
    RunUnfolds(p, whole);
  }

  // ---- Paragraphs --------------------------------------------------------------------------

  /** A new paragraph: blanks at the end are dropped, and a line ends unless one just did. */
  lemma ParagraphEndsLine(p: Parser, rest: Bytes)
    requires ReadsText(p)
    ensures exists kept: Bytes, blanks: Bytes ::
      IsTrimmed(p.text, kept, blanks) && Run(p, WordThen("par", [], rest)) == Run(p.(text := Ended(kept)), rest)
  {
    hide Run, ParameterSpan, SignedInteger, WordThen, WithoutTrailingBlanks;
    NoNumber(rest);
    WordStep(p, "par", [], rest);
    var kept := WithoutTrailingBlanks(p.text);
    TrimmedText(p.text);
    assert IsTrimmed(p.text, kept, p.text[|kept|..]);
    assert AfterWord(p, "par", None) == p.(text := Ended(kept));
  }

  predicate IsTrimmed(text: Bytes, kept: Bytes, blanks: Bytes) {
    && text == kept + blanks
    && (forall i :: 0 <= i < |blanks| ==> blanks[i] == ' ' || blanks[i] == '\t')
    && (kept != [] ==> kept[|kept| - 1] != ' ' && kept[|kept| - 1] != '\t')
  }

  function Ended(kept: Bytes): Bytes {
    if kept == [] || kept[|kept| - 1] == '\n' then kept else kept + ['\n']
  }

  lemma {:induction false} TrimmedText(text: Bytes)
    ensures var kept := WithoutTrailingBlanks(text); IsTrimmed(text, kept, text[|kept|..])
  {
    var kept := WithoutTrailingBlanks(text);
    if Last(text) == Some(' ') || Last(text) == Some('\t') {
      var front := text[..|text| - 1];
      TrimmedText(front);
      OneMoreBlank(front, kept, text[|text| - 1]);
      assert text == front + [text[|text| - 1]];
    }
  }

  lemma OneMoreBlank(front: Bytes, kept: Bytes, blank: ByteChar)
    requires kept <= front && IsTrimmed(front, kept, front[|kept|..]) && (blank == ' ' || blank == '\t')
    ensures IsTrimmed(front + [blank], kept, (front + [blank])[|kept|..])
  {
    assert (front + [blank])[|kept|..] == front[|kept|..] + [blank];
  }

  // ---- Symbols -----------------------------------------------------------------------------

  function HexChar(n: nat): ByteChar
    requires n < 16
  {
    "0123456789abcdef"[n]
  }

  /** `\'` and two hexadecimal digits are the character of that code. */
  lemma HexEscapeReads(p: Parser, b: ByteChar, rest: Bytes)
    requires ReadsText(p)
    ensures Run(p, ['\\', '\'', HexChar(b as int / 16), HexChar(b as int % 16)] + rest)
      == Run(p.(text := p.text + EncodeScalar(b as int)), rest)
  {
    hide Run, AfterWord, ControlAt, FallbackSize, EncodeScalar, WordSeparated;
    var whole := ['\\', '\'', HexChar(b as int / 16), HexChar(b as int % 16)] + rest;
    HexCharReads(b as int / 16);
    HexCharReads(b as int % 16);
    assert whole[1..][1] == HexChar(b as int / 16) && whole[1..][2] == HexChar(b as int % 16);
    RunUnfolds(p, whole);
    assert whole[4..] == rest;
  }

  lemma HexCharReads(n: nat)
    requires n < 16
    ensures IsHexDigit(HexChar(n)) && HexValue(HexChar(n)) == n
  {}

  lemma SymbolRuns(p: Parser, c: ByteChar, rest: Bytes)
    requires ReadsText(p) && !IsLetter(c) && AfterSymbol(p, [c] + rest).size == 1
    ensures Run(p, ['\\', c] + rest) == Run(AfterSymbol(p, [c] + rest).p, rest)
  {
    hide Run, AfterWord, AfterSymbol, ControlAt, FallbackSize;
    var whole := ['\\', c] + rest;
    assert whole[1..] == [c] + rest && whole[2..] == rest;
    RunUnfolds(p, whole);
  }

  /** `\_` is a hyphen. */
  lemma HyphenReads(p: Parser, rest: Bytes)
    requires ReadsText(p)
    ensures Run(p, ['\\', '_'] + rest) == Run(p.(text := p.text + ['-']), rest)
  {
    hide Run;
    SymbolRuns(p, '_', rest);
  }

  /** `\~` is a blank unless one is there. */
  lemma BlankReads(p: Parser, rest: Bytes)
    requires ReadsText(p)
    ensures var separated := p.text == [] || p.text[|p.text| - 1] in [' ', '\n', '\t'];
      Run(p, ['\\', '~'] + rest) == Run(if separated then p else p.(text := p.text + [' ']), rest)
  {
    hide Run;
    SymbolRuns(p, '~', rest);
  }

  // ---- What is skipped ---------------------------------------------------------------------

  /** Bytes that are due as fallback characters, none of which begins an escape, vanish. */
  lemma {:induction false} PlainIsSkipped(p: Parser, bytes: Bytes, rest: Bytes)
    requires !p.Stopped() && p.skipCharacters == |bytes| && '\\' !in bytes
    ensures Run(p, bytes + rest) == Run(p.(skipCharacters := 0), rest)
    decreases |bytes|
  {
    hide Run;
    if bytes == [] {
      assert bytes + rest == rest && p == p.(skipCharacters := 0);
    } else {
      var whole := bytes + rest;
      assert whole[0] == bytes[0] && whole[1..] == bytes[1..] + rest;
      RunUnfolds(p, whole);
      PlainIsSkipped(p.(skipCharacters := p.skipCharacters - 1), bytes[1..], rest);
    }
  }

  /** One fallback character may be an escaped byte, a symbol, or a whole word. */
  lemma EscapesAreSkipped(p: Parser, b: ByteChar, word: Bytes, rest: Bytes)
    requires !p.Stopped() && p.skipCharacters == 1 && IsWord(word)
    ensures Run(p, ['\\', '\'', HexChar(b as int / 16), HexChar(b as int % 16)] + rest)
      == Run(p.(skipCharacters := 0), rest)
    ensures !IsLetter(b) && b != '\'' ==> Run(p, ['\\', b] + rest) == Run(p.(skipCharacters := 0), rest)
    ensures Run(p, WordThen(word, [], rest)) == Run(p.(skipCharacters := 0), rest)
  {
    hide Run, ControlAt, ParameterSpan, SignedInteger;
    HexCharReads(b as int / 16);
    HexCharReads(b as int % 16);
    SkipsOne(p, ['\\', '\'', HexChar(b as int / 16), HexChar(b as int % 16)], rest);
    if !IsLetter(b) && b != '\'' { SkipsOne(p, ['\\', b], rest); }
    NoNumber(rest);
    WordControl(word, [], rest);
    var whole := WordThen(word, [], rest);
    assert [] + ([' '] + rest) == [' '] + rest;
    assert whole[1..] == word + ([] + ([' '] + rest));
    assert whole == (['\\'] + word + [' ']) + rest && whole[1] == word[0];
    SkipsOne(p, ['\\'] + word + [' '], rest);
  }

  lemma SkipsOne(p: Parser, front: Bytes, rest: Bytes)
    requires !p.Stopped() && p.skipCharacters == 1 && front != [] && FallbackSize(front + rest) == |front|
    ensures Run(p, front + rest) == Run(p.(skipCharacters := 0), rest)
  {
    hide Run, FallbackSize;
    RunUnfolds(p, front + rest);
    assert (front + rest)[|front|..] == rest;
  }

  /** After `\u` and its number, as many bytes as `\uc` has said are its fallback. */
  lemma FallbackIsSkipped(p: Parser, n: CodePoint, fallback: Bytes, rest: Bytes)
    requires ReadsText(p) && IsScalar(n) && n >= 0x80
    requires |fallback| == p.state.fallbackCharacters > 0 && '\\' !in fallback
    requires !IsDigit(fallback[0]) && fallback[0] != ' '
    ensures Run(p, UnicodeThen(Signed16(n), fallback + rest)) == Run(p.(text := p.text + EncodeScalar(n)), rest)
  {
    hide Run, SignedDigits, EncodeScalar, UnicodeParameter, Signed16;
    NumberOfScalar(n);
    assert fallback + rest == [fallback[0]] + (fallback[1..] + rest);
    UnicodeStep(p, Signed16(n), fallback[0], fallback[1..] + rest);
    var due := p.(text := p.text + EncodeScalar(n), skipCharacters := |fallback|);
    PlainIsSkipped(due, fallback, rest);
  }

  lemma WordNumber(n: nat, rest: Bytes)
    requires n <= INT64_MAX
    ensures ParameterSpan(ByteDigits(n) + ([' '] + rest)) == |ByteDigits(n)|
    ensures SignedInteger(ByteDigits(n)) == Some(n) && ByteDigits(n) != [] && !IsLetter(ByteDigits(n)[0])
  {
    hide ParameterSpan, SignedInteger, DigitSpan, Parse, ByteDigits;
    DigitsReadBack(n, ' ', rest);
    UnsignedReads(ByteDigits(n), [' '] + rest);
  }

  /** `\uc` sets how many fallback characters follow, if they are at most thirty-two. */
  lemma FallbackCountIsSet(p: Parser, n: nat, rest: Bytes)
    requires ReadsText(p) && n <= INT64_MAX
    ensures Run(p, WordThen("uc", ByteDigits(n), rest))
      == Run(if n <= 32 then p.(state := State(false, n)) else p, rest)
  {
    hide Run, ParameterSpan, SignedInteger, ByteDigits, WordThen;
    WordNumber(n, rest);
    WordStep(p, "uc", ByteDigits(n), rest);
  }

  /** `\bin` and its number skip that many bytes, if none of them is a backslash, which
      the parser takes together with its escape; more than sixteen megabytes are refused. */
  lemma BinaryIsSkipped(p: Parser, data: Bytes, rest: Bytes)
    requires ReadsText(p) && '\\' !in data && |data| <= INT64_MAX
    ensures |data| <= 0x100_0000 ==> Run(p, WordThen("bin", ByteDigits(|data|), data + rest)) == Run(p, rest)
    ensures |data| > 0x100_0000 ==> Run(p, WordThen("bin", ByteDigits(|data|), data + rest)).limitExceeded
  {
    hide Run, ParameterSpan, SignedInteger, ByteDigits, WordThen;
    WordNumber(|data|, data + rest);
    WordStep(p, "bin", ByteDigits(|data|), data + rest);
    if |data| <= 0x100_0000 {
      PlainIsSkipped(p.(skipCharacters := |data|), data, rest);
    } else {
      RunStops(p.(limitExceeded := true), data + rest);
    }
  }
}
