/** Text written as RTF, and what the parser makes of it. */
module RtfWriting {
  import opened Optional
  import opened Utf8
  import opened Decimal
  import opened Rtf

  /** Reading visible text in a group, with no fallback character due. */
  predicate ReadsText(p: Parser) {
    !p.Stopped() && !p.state.skipDestination && !p.pendingIgnorable && p.skipCharacters == 0
  }

  function ByteDigits(n: nat): Bytes { Digits(n) }

  function SignedDigits(n: int): Bytes {
    if n < 0 then ['-'] + ByteDigits(-n) else ByteDigits(n)
  }

  /** A 16-bit unit as the signed number that follows `\u`. */
  function Signed16(unit: nat): int { if 0x8000 <= unit <= 0xFFFF then unit - 65536 else unit }

  /** `\u`, a number, and what follows it. */
  function UnicodeThen(n: int, rest: Bytes): Bytes { ['\\'] + (['u'] + (SignedDigits(n) + rest)) }

  /** `\u`, a number, and a question mark as its fallback. */
  function UnicodeWord(n: int): Bytes { UnicodeThen(n, ['?']) }

  function HighSurrogate(n: CodePoint): nat
    requires n > 0xFFFF
  {
    0xD800 + (n - 0x10000) / 0x400
  }

  function LowSurrogate(n: CodePoint): nat { 0xDC00 + n % 0x400 }

  /** A scalar as RTF: escaped, plain, or by number.  Beyond 16 bits it is a pair of
      surrogates, as the format prescribes, or one wide number. */
  function Written(n: CodePoint, paired: bool): Bytes {
    if n == 0x5C || n == 0x7B || n == 0x7D then ['\\', Byte(n)]
    else if n < 0x80 then [Byte(n)]
    else if n > 0xFFFF && paired then
      UnicodeWord(Signed16(HighSurrogate(n))) + UnicodeWord(Signed16(LowSurrogate(n)))
    else UnicodeWord(Signed16(n))
  }

  function WrittenAll(scalars: seq<CodePoint>, paired: bool): Bytes {
    if scalars == [] then [] else Written(scalars[0], paired) + WrittenAll(scalars[1..], paired)
  }

  // ---- Reading one word --------------------------------------------------------------

  lemma DigitsReadBack(n: nat, c: ByteChar, s: Bytes)
    requires n <= INT64_MAX && !IsDigit(c)
    ensures DigitSpan(ByteDigits(n) + ([c] + s)) == |ByteDigits(n)|
    ensures Parse(ByteDigits(n), INT64_MAX) == Parse(ByteDigits(n), INT64_MAX + 1) == Some(n)
    ensures ByteDigits(n) != [] && IsDigit(ByteDigits(n)[0])
  {
    hide DigitSpan, Parse, Digits;
    DigitSpanOf(Digits(n), [c] + s);
    ParseDigits(n, INT64_MAX);
    ParseDigits(n, INT64_MAX + 1);
  }

  lemma UnsignedReads(digits: Bytes, rest: Bytes)
    requires digits != [] && IsDigit(digits[0])
    ensures ParameterSpan(digits + rest) == DigitSpan(digits + rest) && !IsLetter(digits[0])
    ensures Parse(digits, INT64_MAX).Some? ==> SignedInteger(digits) == Some(Parse(digits, INT64_MAX).value as int)
  {
    hide DigitSpan, Parse;
    assert (digits + rest)[0] == digits[0];
  }

  lemma NegativeReads(digits: Bytes, rest: Bytes)
    ensures ParameterSpan(['-'] + digits + rest) == 1 + DigitSpan(digits + rest)
    ensures Parse(digits, INT64_MAX + 1).Some? ==>
      SignedInteger(['-'] + digits) == Some(0 - Parse(digits, INT64_MAX + 1).value as int)
  {
    hide DigitSpan, Parse;
    assert (['-'] + digits + rest)[1..] == digits + rest && (['-'] + digits)[1..] == digits;
  }

  lemma NumberReadsBack(n: int, c: ByteChar, s: Bytes)
    requires -65536 <= n <= 0x10FFFF && !IsDigit(c)
    ensures var digits := SignedDigits(n);
      && ParameterSpan(digits + ([c] + s)) == |digits| && SignedInteger(digits) == Some(n)
      && digits != [] && !IsLetter(digits[0])
  {
    hide DigitSpan, Parse, ByteDigits, ParameterSpan, SignedInteger;
    if n < 0 {
      DigitsReadBack(-n, c, s);
      NegativeReads(ByteDigits(-n), [c] + s);
    } else {
      DigitsReadBack(n, c, s);
      UnsignedReads(ByteDigits(n), [c] + s);
    }
  }

  lemma ControlReadsBack(n: int, c: ByteChar, s: Bytes)
    requires -65536 <= n <= 0x10FFFF && !IsDigit(c) && c != ' '
    ensures ControlAt(['u'] + (SignedDigits(n) + ([c] + s))) == Control(['u'], Some(n), 1 + |SignedDigits(n)|)
  {
    hide SignedInteger, ParameterSpan, SignedDigits;
    var number := SignedDigits(n) + ([c] + s);
    var text := ['u'] + number;
    NumberReadsBack(n, c, s);
    assert text[1..] == number;
    assert number[0] == SignedDigits(n)[0];
    assert LetterSpan(number) == 0;
    assert text[1..1 + |SignedDigits(n)|] == SignedDigits(n);
  }

  /** After `\u` and its number the text has the scalar, and fallback characters are due. */
  lemma UnicodeStep(p: Parser, n: int, c: ByteChar, s: Bytes)
    requires ReadsText(p) && -65536 <= n <= 0x10FFFF && !IsDigit(c) && c != ' '
    ensures Run(p, UnicodeThen(n, [c] + s))
      == Run(p.(text := AppendScalar(p.text, UnicodeParameter(n)), skipCharacters := p.state.fallbackCharacters),
           [c] + s)
  {
    hide ControlAt, SignedDigits, AppendScalar, UnicodeParameter, Run;
    var control := ['u'] + (SignedDigits(n) + ([c] + s));
    var whole := ['\\'] + control;
    ControlReadsBack(n, c, s);
    assert whole[1..] == control;
    RunUnfolds(p, whole);
    assert WordKind(['u']) == Unicode;
    assert whole[2 + |SignedDigits(n)|..] == [c] + s;
  }

  /** With one fallback character, `\u` and its question mark leave just the scalar. */
  lemma UnicodeWordReads(p: Parser, n: int, s: Bytes)
    requires ReadsText(p) && p.state.fallbackCharacters == 1 && -65536 <= n <= 0x10FFFF
    ensures Run(p, UnicodeWord(n) + s) == Run(p.(text := AppendScalar(p.text, UnicodeParameter(n))), s)
  {
    hide SignedDigits, AppendScalar, UnicodeParameter, Run;
    UnicodeStep(p, n, '?', s);
    assert UnicodeWord(n) + s == UnicodeThen(n, ['?'] + s);
    var q := p.(text := AppendScalar(p.text, UnicodeParameter(n)), skipCharacters := 1);
    RunUnfolds(q, ['?'] + s);
    assert (['?'] + s)[1..] == s;
  }

  lemma PlainStep(p: Parser, c: ByteChar, s: Bytes)
    requires ReadsText(p) && c != '\\' && c != '{' && c != '}'
    ensures Run(p, [c] + s) == Run(p.(text := p.text + [c]), s)
  {
    hide Run, AfterWord, ControlAt, FallbackSize, AfterSymbol;
    assert ([c] + s)[1..] == s;
    RunUnfolds(p, [c] + s);
  }

  lemma EscapedStep(p: Parser, c: ByteChar, s: Bytes)
    requires ReadsText(p) && (c == '\\' || c == '{' || c == '}')
    ensures Run(p, ['\\', c] + s) == Run(p.(text := p.text + [c]), s)
  {
    hide Run, AfterWord, ControlAt, FallbackSize, AppendScalar, WordSeparated;
    var whole := ['\\', c] + s;
    assert whole[1..] == [c] + s && whole[2..] == s;
    RunUnfolds(p, whole);
  }

  // ---- Reading text ------------------------------------------------------------------

  /** The scalar reaches the text unless it is written as a pair. */
  predicate Survives(n: CodePoint, paired: bool) { n <= 0xFFFF || !paired }

  function Surviving(scalars: seq<CodePoint>, paired: bool): seq<CodePoint> {
    if scalars == [] then []
    else if Survives(scalars[0], paired) then [scalars[0]] + Surviving(scalars[1..], paired)
    else Surviving(scalars[1..], paired)
  }

  lemma NumberOfScalar(n: CodePoint)
    requires n >= 0x80 && IsScalar(n)
    ensures UnicodeParameter(Signed16(n)) == n && -65536 <= Signed16(n) <= 0x10FFFF
  {}

  /** Each half of a pair is a surrogate, and no surrogate is appended. */
  lemma HalvesVanish(text: Bytes, n: CodePoint)
    requires n > 0xFFFF
    ensures AppendScalar(text, UnicodeParameter(Signed16(HighSurrogate(n)))) == text
    ensures AppendScalar(text, UnicodeParameter(Signed16(LowSurrogate(n)))) == text
    ensures -65536 <= Signed16(HighSurrogate(n)) <= 0x10FFFF && -65536 <= Signed16(LowSurrogate(n)) <= 0x10FFFF
  {
    hide EncodeScalar;
  }

  lemma PairIsDropped(p: Parser, n: CodePoint, s: Bytes)
    requires ReadsText(p) && p.state.fallbackCharacters == 1 && n > 0xFFFF
    ensures Run(p, Written(n, true) + s) == Run(p, s)
  {
    hide Run, ReadsText, UnicodeWord, HighSurrogate, LowSurrogate, AppendScalar;
    var high, low := UnicodeWord(Signed16(HighSurrogate(n))), UnicodeWord(Signed16(LowSurrogate(n)));
    HalvesVanish(p.text, n);
    UnicodeWordReads(p, Signed16(HighSurrogate(n)), low + s);
    UnicodeWordReads(p, Signed16(LowSurrogate(n)), s);
    assert (high + low) + s == high + (low + s);
  }

  lemma SmallScalars(n: CodePoint, paired: bool)
    requires n < 0x80
    ensures EncodeScalar(n) == [Byte(n)]
    ensures Written(n, paired)
      == if Byte(n) == '\\' || Byte(n) == '{' || Byte(n) == '}' then ['\\', Byte(n)] else [Byte(n)]
  {}

  lemma ScalarReadsBack(p: Parser, n: CodePoint, paired: bool, s: Bytes)
    requires ReadsText(p) && p.state.fallbackCharacters == 1 && IsScalar(n) && Survives(n, paired)
    ensures Run(p, Written(n, paired) + s) == Run(p.(text := p.text + EncodeScalar(n)), s)
  {
    hide Run, ReadsText, Byte, EncodeScalar, UnicodeWord, UnicodeParameter, Signed16;
    if n < 0x80 {
      SmallScalars(n, paired);
      if Byte(n) == '\\' || Byte(n) == '{' || Byte(n) == '}' {
        EscapedStep(p, Byte(n), s);
      } else {
        PlainStep(p, Byte(n), s);
      }
    } else {
      NumberOfScalar(n);
      UnicodeWordReads(p, Signed16(n), s);
    }
  }

  /** Any text, written in either way, is read as the UTF-8 of what survives. */
  lemma {:induction false} WrittenTextReadsBack(p: Parser, scalars: seq<CodePoint>, paired: bool)
    requires ReadsText(p) && p.state.fallbackCharacters == 1
    requires forall i :: 0 <= i < |scalars| ==> IsScalar(scalars[i])
    ensures Run(p, WrittenAll(scalars, paired)) == p.(text := p.text + Encode(Surviving(scalars, paired)))
    decreases |scalars|
  {
    hide Written, EncodeScalar, IsScalar, Run;
    if scalars == [] {
      assert p.text + [] == p.text;
      RunStops(p, []);
    } else {
      var n, rest := scalars[0], WrittenAll(scalars[1..], paired);
      if Survives(n, paired) {
        var next := p.(text := p.text + EncodeScalar(n));
        ScalarReadsBack(p, n, paired, rest);
        WrittenTextReadsBack(next, scalars[1..], paired);
        var others := Surviving(scalars[1..], paired);
        assert Surviving(scalars, paired)[1..] == others;
        assert p.text + (EncodeScalar(n) + Encode(others)) == next.text + Encode(others);
      } else {
        PairIsDropped(p, n, rest);
        WrittenTextReadsBack(p, scalars[1..], paired);
      }
    }
  }

  lemma {:induction false} SurvivingIsAll(scalars: seq<CodePoint>, paired: bool)
    ensures |Surviving(scalars, paired)| <= |scalars|
    ensures Surviving(scalars, paired) == scalars <==> forall i :: 0 <= i < |scalars| ==> Survives(scalars[i], paired)
    ensures forall i :: 0 <= i < |Surviving(scalars, paired)| ==> Surviving(scalars, paired)[i] in scalars
  {
    hide Survives;
    if scalars != [] {
      SurvivingIsAll(scalars[1..], paired);
      assert scalars == [scalars[0]] + scalars[1..];
      assert Survives(scalars[0], paired) ==> Surviving(scalars, paired)[1..] == Surviving(scalars[1..], paired);
    }
  }

  /** Written as the format prescribes, a text is read back if and only if it stays
      within 16 bits: every scalar beyond is lost with its pair. */
  lemma SurrogatesAreDropped(p: Parser, scalars: seq<CodePoint>)
    requires ReadsText(p) && p.state.fallbackCharacters == 1
    requires forall i :: 0 <= i < |scalars| ==> IsScalar(scalars[i])
    ensures Run(p, WrittenAll(scalars, true)).text == p.text + Encode(scalars)
      <==> forall i :: 0 <= i < |scalars| ==> scalars[i] <= 0xFFFF
  {
    hide Run, WrittenAll, Encode, Decode, IsScalar, ReadsText, Surviving;
    var kept := Surviving(scalars, true);
    WrittenTextReadsBack(p, scalars, true);
    SurvivingIsAll(scalars, true);
    forall i | 0 <= i < |kept| ensures IsScalar(kept[i]) {
      assert kept[i] in scalars;
    }
    EncodeReadsBack(kept);
    EncodeReadsBack(scalars);
    if p.text + Encode(kept) == p.text + Encode(scalars) { SameTail(p.text, Encode(kept), Encode(scalars)); }
  }

  lemma SameTail(front: Bytes, a: Bytes, b: Bytes)
    requires front + a == front + b
    ensures a == b
  {
    assert (front + a)[|front|..] == a && (front + b)[|front|..] == b;
  }

  // ---- A number at the end of a group ----------------------------------------------------

  /** A group that ends right after `\u` and its number is closed by its brace if and only
      if no fallback character is due there; otherwise the brace is taken for one, and the
      document ends inside the group. */
  lemma FallbackSwallowsBraces(p: Parser, n: int)
    requires ReadsText(p) && |p.stack| < MAXIMUM_DEPTH && -65536 <= n <= 0x10FFFF
    ensures Run(p, ['{'] + UnicodeThen(n, ['}'])).stack
      == if p.state.fallbackCharacters == 0 then p.stack else p.stack + [p.state]
  {
    hide Run, SignedDigits, AppendScalar, UnicodeParameter;
    var whole, word := ['{'] + UnicodeThen(n, ['}']), UnicodeThen(n, ['}']);
    var inside := p.(stack := p.stack + [p.state]);
    assert whole[1..] == word;
    RunUnfolds(p, whole);
    assert ['}'] + [] == ['}'];
    UnicodeStep(inside, n, '}', []);
    var due := inside.(text := AppendScalar(p.text, UnicodeParameter(n)), skipCharacters := p.state.fallbackCharacters);
    RunUnfolds(due, ['}']);
    assert (p.stack + [p.state])[..|p.stack|] == p.stack;
    RunStops(Step(due, ['}']).p, []);
    assert ['}'][1..] == [];
  }
}
