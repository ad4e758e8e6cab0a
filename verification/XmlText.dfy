/**
 XML text and attribute decoding (XML 1.0, sections 4.1 and 4.6) as the
 lightweight document parsers do it.
 */
module XmlText {
  import opened Optional
  import opened Utf8

  const MAXIMUM_ENTITY_LENGTH: nat := 32
  const UINT32_MAX: nat := 0xFFFF_FFFF

  function LowerChar(c: ByteChar): ByteChar {
    if 'A' <= c <= 'Z' then Byte(c as int + 32) else c
  }

  function Lower(text: Bytes): Bytes { seq(|text|, i requires 0 <= i < |text| => LowerChar(text[i])) }

  // ---- Character references -----------------------------------------------------

  datatype Base = Ten | Sixteen {
    function Size(): nat { if Ten? then 10 else 16 }

    function Times(n: nat): nat { if Ten? then n * 10 else n * 16 }

    function Over(n: nat): nat { if Ten? then n / 10 else n / 16 }

    function Last(n: nat): (d: nat)
      ensures d < Size() && Times(Over(n)) + d == n
    {
      if Ten? then n % 10 else n % 16
    }
  }

  function DigitIn(base: Base, c: ByteChar): Option<nat> {
    if '0' <= c <= '9' then Some(c as int - 48)
    else if base.Sixteen? && 'a' <= c <= 'f' then Some(c as int - 87)
    else if base.Sixteen? && 'A' <= c <= 'F' then Some(c as int - 55)
    else None
  }

  /** The number the digits stand for; None if one is no digit. */
  function NumberIn(base: Base, digits: Bytes): Option<nat> {
    if digits == [] then Some(0) else
      var front, last := NumberIn(base, digits[..|digits| - 1]), DigitIn(base, digits[|digits| - 1]);
      if front.Some? && last.Some? then Some(base.Times(front.value) + last.value) else None
  }

  /** from_chars into 32 bits, then the check for a Unicode scalar. */
  function ScalarIn(base: Base, digits: Bytes): (n: Option<CodePoint>)
    ensures n.Some? ==> IsScalar(n.value)
  {
    if digits == [] then None else
      var number := NumberIn(base, digits);
      if number.Some? && number.value <= UINT32_MAX && IsScalar(number.value) then Some(number.value) else None
  }

  function NumericEntity(entity: Bytes): (n: Option<CodePoint>)
    ensures n.Some? ==> IsScalar(n.value)
  {
    if |entity| < 2 || entity[0] != '#' then None
    else if entity[1] == 'x' || entity[1] == 'X' then ScalarIn(Sixteen, entity[2..])
    else ScalarIn(Ten, entity[1..])
  }

  function NamedEntity(name: Bytes): Option<ByteChar> {
    if name == ['a', 'm', 'p'] then Some('&')
    else if name == ['a', 'p', 'o', 's'] then Some('\'')
    else if name == ['g', 't'] then Some('>')
    else if name == ['l', 't'] then Some('<')
    else if name == ['q', 'u', 'o', 't'] then Some('"')
    else None
  }

  /** Index of the first `c`, or the length. */
  function Find(c: ByteChar, s: Bytes): (i: nat)
    ensures i <= |s|
  {
    if s == [] || s[0] == c then 0 else 1 + Find(c, s[1..])
  }

  lemma {:induction false} FindAfter(c: ByteChar, front: Bytes, s: Bytes)
    requires c !in front
    ensures Find(c, front + ([c] + s)) == |front|
  {
    if front != [] {
      FindAfter(c, front[1..], s);
      assert (front + ([c] + s))[1..] == front[1..] + ([c] + s);
    }
  }

  /** What an entity (between `&` and `;`) stands for. */
  function Replacement(entity: Bytes): Option<Bytes> {
    if NumericEntity(entity).Some? then Some(EncodeScalar(NumericEntity(entity).value))
    else if NamedEntity(Lower(entity)).Some? then Some([NamedEntity(Lower(entity)).value])
    else None
  }

  /** The entity at the front of what follows an ampersand. */
  function EntityAt(s: Bytes): (entity: Option<Bytes>)
    ensures entity.Some? ==> |entity.value| < |s|
  {
    if Find(';', s) == |s| || Find(';', s) > MAXIMUM_ENTITY_LENGTH then None
    else Some(s[..Find(';', s)])
  }

  function Decoded(text: Bytes): Bytes {
    if text == [] then []
    else if text[0] == '&' && EntityAt(text[1..]).Some? && Replacement(EntityAt(text[1..]).value).Some? then
      var entity := EntityAt(text[1..]).value;
      Replacement(entity).value + Decoded(text[|entity| + 2..])
    else [text[0]] + Decoded(text[1..])
  }

  lemma DecodedStep(text: Bytes, offset: nat, output: Bytes)
    requires offset < |text|
    ensures var entity := EntityAt(text[offset + 1..]);
      output + Decoded(text[offset..]) ==
        if text[offset] == '&' && entity.Some? && Replacement(entity.value).Some? then
          output + Replacement(entity.value).value + Decoded(text[offset + |entity.value| + 2..])
        else output + [text[offset]] + Decoded(text[offset + 1..])
  {
    hide Decoded, EntityAt, Replacement;
    var rest := text[offset..];
    assert rest[1..] == text[offset + 1..];
    DecodedUnfolds(rest);
    var entity := EntityAt(rest[1..]);
    if rest[0] == '&' && entity.Some? && Replacement(entity.value).Some? {
      assert rest[|entity.value| + 2..] == text[offset + |entity.value| + 2..];
      var tail := Decoded(rest[|entity.value| + 2..]);
      assert output + (Replacement(entity.value).value + tail) == output + Replacement(entity.value).value + tail;
    } else {
      assert output + ([rest[0]] + Decoded(rest[1..])) == output + [rest[0]] + Decoded(rest[1..]);
    }
  }

  lemma DecodedUnfolds(text: Bytes)
    requires text != []
    ensures var entity := EntityAt(text[1..]);
      Decoded(text) ==
        if text[0] == '&' && entity.Some? && Replacement(entity.value).Some? then
          Replacement(entity.value).value + Decoded(text[|entity.value| + 2..])
        else [text[0]] + Decoded(text[1..])
  {}

  method AppendDecodedText(text: Bytes, output: Bytes) returns (extended: Bytes)
    ensures extended == output + Decoded(text)
  {
    hide Decoded, Replacement;
    extended := output;
    var offset: nat := 0;
    assert text[0..] == text;
    while offset < |text|
      invariant offset <= |text| && output + Decoded(text) == extended + Decoded(text[offset..])
    {
      DecodedStep(text, offset, extended);
      var c := text[offset];
      var length := Find(';', text[offset + 1..]);
      if c == '&' && offset + 1 + length < |text| && length <= MAXIMUM_ENTITY_LENGTH {
        var entity := text[offset + 1..][..length];
        var replacement := Replacement(entity);
        if replacement.Some? {
          extended := extended + replacement.value;
          offset := offset + length + 2;
          continue;
        }
      }
      extended := extended + [c];
      offset := offset + 1;
    }
    assert text[offset..] == [];
    NothingDecoded(extended);
  }

  lemma NothingDecoded(output: Bytes)
    ensures output + Decoded([]) == output
  {}

  // ---- Written text ----------------------------------------------------------------

  /** The ways to write a piece of text. */
  datatype Piece =
    | Plain(c: ByteChar)
    | Named(name: Bytes)
    | DecimalReference(digits: Bytes)
    | HexReference(x: ByteChar, digits: Bytes)

  predicate Writable(p: Piece) {
    match p
    case Plain(c) => c != '&'
    case Named(name) => NamedEntity(Lower(name)).Some?
    case DecimalReference(digits) => |digits| < MAXIMUM_ENTITY_LENGTH && ScalarIn(Ten, digits).Some?
    case HexReference(x, digits) =>
      (x == 'x' || x == 'X') && |digits| < MAXIMUM_ENTITY_LENGTH - 1 && ScalarIn(Sixteen, digits).Some?
  }

  function Print(p: Piece): Bytes {
    match p
    case Plain(c) => [c]
    case Named(name) => ['&'] + name + [';']
    case DecimalReference(digits) => ['&'] + (['#'] + digits) + [';']
    case HexReference(x, digits) => ['&'] + (['#', x] + digits) + [';']
  }

  function Meaning(p: Piece): Bytes
    requires Writable(p)
  {
    match p
    case Plain(c) => [c]
    case Named(name) => [NamedEntity(Lower(name)).value]
    case DecimalReference(digits) => EncodeScalar(ScalarIn(Ten, digits).value)
    case HexReference(_, digits) => EncodeScalar(ScalarIn(Sixteen, digits).value)
  }

  function PrintAll(pieces: seq<Piece>): Bytes {
    if pieces == [] then [] else Print(pieces[0]) + PrintAll(pieces[1..])
  }

  function MeaningAll(pieces: seq<Piece>): Bytes
    requires forall i :: 0 <= i < |pieces| ==> Writable(pieces[i])
  {
    if pieces == [] then [] else Meaning(pieces[0]) + MeaningAll(pieces[1..])
  }

  lemma EntityInFront(entity: Bytes, s: Bytes)
    requires ';' !in entity && |entity| <= MAXIMUM_ENTITY_LENGTH && Replacement(entity).Some?
    ensures Decoded(['&'] + entity + [';'] + s) == Replacement(entity).value + Decoded(s)
  {
    hide Replacement;
    var whole := ['&'] + entity + [';'] + s;
    FindAfter(';', entity, s);
    assert whole[1..] == entity + ([';'] + s);
    assert whole[1..][..|entity|] == entity;
    assert whole[|entity| + 2..] == s;
  }

  lemma NamedHasNoSemicolon(name: Bytes)
    requires NamedEntity(Lower(name)).Some?
    ensures ';' !in name && '"' !in name && '\'' !in name && |name| <= 4 && (name != [] ==> name[0] != '#')
  {
    forall i | 0 <= i < |name| ensures 'a' <= LowerChar(name[i]) <= 'z' {
      assert Lower(name)[i] == LowerChar(name[i]);
    }
    assert |Lower(name)| == |name|;
  }

  lemma {:induction false} DigitsHaveNoSemicolon(base: Base, digits: Bytes)
    requires NumberIn(base, digits).Some?
    ensures ';' !in digits && '"' !in digits && '\'' !in digits && '&' !in digits
    ensures 'x' !in digits && 'X' !in digits
  {
    if digits != [] {
      DigitsHaveNoSemicolon(base, digits[..|digits| - 1]);
      assert digits == digits[..|digits| - 1] + [digits[|digits| - 1]];
    }
  }

  lemma PieceReadsBack(p: Piece, s: Bytes)
    requires Writable(p)
    ensures Decoded(Print(p) + s) == Meaning(p) + Decoded(s)
  {
    hide Decoded, EncodeScalar, NumberIn;
    match p
    case Plain(c) =>
      assert ([c] + s)[1..] == s;
      DecodedUnfolds([c] + s);
    case Named(name) =>
      NamedHasNoSemicolon(name);
      EntityInFront(name, s);
    case DecimalReference(digits) =>
      var entity := ['#'] + digits;
      DigitsHaveNoSemicolon(Ten, digits);
      assert entity[1..] == digits && entity[1] == digits[0];
      EntityInFront(entity, s);
    case HexReference(x, digits) =>
      var entity := ['#', x] + digits;
      DigitsHaveNoSemicolon(Sixteen, digits);
      assert entity[2..] == digits;
      EntityInFront(entity, s);
  }

  /** Reading what was written, in front of anything. */
  lemma {:induction false} WrittenReadsBack(pieces: seq<Piece>, s: Bytes)
    requires forall i :: 0 <= i < |pieces| ==> Writable(pieces[i])
    ensures Decoded(PrintAll(pieces) + s) == MeaningAll(pieces) + Decoded(s)
  {
    hide Decoded, Writable, Meaning, Print;
    if pieces == [] {
      assert PrintAll(pieces) + s == s && MeaningAll(pieces) + Decoded(s) == Decoded(s);
    } else {
      var tail := PrintAll(pieces[1..]);
      WrittenReadsBack(pieces[1..], s);
      PieceReadsBack(pieces[0], tail + s);
      assert Print(pieces[0]) + tail + s == Print(pieces[0]) + (tail + s);
      assert Meaning(pieces[0]) + (MeaningAll(pieces[1..]) + Decoded(s)) == MeaningAll(pieces) + Decoded(s);
    }
  }

  /** Any text with the five predefined entities escaped. */
  function Escaped(c: ByteChar): Piece {
    if c == '&' then Named(['a', 'm', 'p'])
    else if c == '\'' then Named(['a', 'p', 'o', 's'])
    else if c == '>' then Named(['g', 't'])
    else if c == '<' then Named(['l', 't'])
    else if c == '"' then Named(['q', 'u', 'o', 't'])
    else Plain(c)
  }

  lemma EntityNames()
    ensures Lower(['a', 'm', 'p']) == ['a', 'm', 'p']
    ensures Lower(['g', 't']) == ['g', 't'] && Lower(['l', 't']) == ['l', 't']
    ensures Lower(['a', 'p', 'o', 's']) == ['a', 'p', 'o', 's'] && Lower(['q', 'u', 'o', 't']) == ['q', 'u', 'o', 't']
  {}

  lemma EscapedMeansItself(c: ByteChar)
    ensures Writable(Escaped(c)) && Meaning(Escaped(c)) == [c]
    ensures '"' !in Print(Escaped(c)) && '\'' !in Print(Escaped(c))
  {
    hide Lower;
    EntityNames();
    match Escaped(c)
    case Named(name) => NamedHasNoSemicolon(name);
    case Plain(_) =>
  }

  function EscapedAll(text: Bytes): seq<Piece> { seq(|text|, i requires 0 <= i < |text| => Escaped(text[i])) }

  lemma {:induction false} EscapedAllMeansItself(text: Bytes)
    ensures forall i :: 0 <= i < |text| ==> Writable(EscapedAll(text)[i])
    ensures MeaningAll(EscapedAll(text)) == text
  {
    hide Writable, Escaped, Meaning;
    forall i | 0 <= i < |text| ensures Writable(EscapedAll(text)[i]) {
      EscapedMeansItself(text[i]);
    }
    if text != [] {
      EscapedMeansItself(text[0]);
      EscapedAllMeansItself(text[1..]);
      assert EscapedAll(text)[1..] == EscapedAll(text[1..]);
      assert [text[0]] + text[1..] == text;
    }
  }

  lemma {:induction false} QuotesAreEscaped(text: Bytes)
    ensures '"' !in PrintAll(EscapedAll(text)) && '\'' !in PrintAll(EscapedAll(text))
  {
    hide Escaped, Print;
    if text != [] {
      EscapedMeansItself(text[0]);
      QuotesAreEscaped(text[1..]);
      assert EscapedAll(text)[1..] == EscapedAll(text[1..]);
    }
  }

  lemma EscapingIsUndone(text: Bytes)
    ensures Decoded(PrintAll(EscapedAll(text))) == text
  {
    hide Decoded, Writable;
    EscapedAllMeansItself(text);
    WrittenReadsBack(EscapedAll(text), []);
    assert PrintAll(EscapedAll(text)) + [] == PrintAll(EscapedAll(text));
    NothingDecoded(text);
  }

  // ---- References to every scalar --------------------------------------------------------

  function DigitChar(d: nat): ByteChar
    requires d < 16
  {
    if d < 10 then Byte(48 + d) else Byte(87 + d)
  }

  function DigitsOf(base: Base, n: nat): Bytes {
    (if n < base.Size() then [] else DigitsOf(base, base.Over(n))) + [DigitChar(base.Last(n))]
  }

  lemma OneMoreDigit(base: Base, front: Bytes, value: nat, d: nat)
    requires d < base.Size() && NumberIn(base, front) == Some(value)
    ensures NumberIn(base, front + [DigitChar(d)]) == Some(base.Times(value) + d)
  {
    hide Base.Times;
    var digits := front + [DigitChar(d)];
    assert digits[..|digits| - 1] == front;
    assert DigitIn(base, DigitChar(d)) == Some(d);
  }

  lemma {:induction false} DigitsOfReadBack(base: Base, n: nat)
    ensures NumberIn(base, DigitsOf(base, n)) == Some(n)
  {
    hide NumberIn;
    if n < base.Size() {
      NoDigits(base);
      OneMoreDigit(base, [], 0, n);
    } else {
      DigitsOfReadBack(base, base.Over(n));
      OneMoreDigit(base, DigitsOf(base, base.Over(n)), base.Over(n), base.Last(n));
    }
  }

  lemma NoDigits(base: Base)
    ensures NumberIn(base, []) == Some(0)
  {}

  lemma {:induction false} FewDigits(base: Base, n: nat, count: nat)
    requires count > 0 && n < Power10(count)
    ensures |DigitsOf(base, n)| <= count
  {
    if n >= base.Size() {
      FewDigits(base, base.Over(n), count - 1);
    }
  }

  function Power10(k: nat): nat { if k == 0 then 1 else 10 * Power10(k - 1) }

  /** A decimal or hexadecimal reference to any scalar decodes to UTF-8 that decodes
      back to that scalar. */
  lemma ReferenceDecodes(n: CodePoint, s: Bytes)
    requires IsScalar(n)
    ensures var p := DecimalReference(DigitsOf(Ten, n));
      Writable(p) && Decoded(Print(p) + s) == EncodeScalar(n) + Decoded(s)
    ensures var p := HexReference('x', DigitsOf(Sixteen, n));
      Writable(p) && Decoded(Print(p) + s) == EncodeScalar(n) + Decoded(s)
    ensures Decode(EncodeScalar(n)) == Some([n])
  {
    hide Decoded, Decode, EncodeScalar, Print, NumberIn;
    DigitsOfReadBack(Ten, n);
    DigitsOfReadBack(Sixteen, n);
    assert Power10(7) == 10000000;
    FewDigits(Ten, n, 7);
    FewDigits(Sixteen, n, 7);
    PieceReadsBack(DecimalReference(DigitsOf(Ten, n)), s);
    PieceReadsBack(HexReference('x', DigitsOf(Sixteen, n)), s);
    EncodeReadsBack([n]);
    OneScalar(n);
  }

  lemma OneScalar(n: CodePoint)
    ensures Encode([n]) == EncodeScalar(n)
  {
    assert EncodeScalar(n) + [] == EncodeScalar(n);
  }

  /** The text between `&` and `;` of a numeric reference; `x` is the letter of the
      hexadecimal form. */
  function NumericText(base: Base, x: ByteChar, digits: Bytes): Bytes {
    if base.Ten? then ['#'] + digits else ['#', x] + digits
  }

  /** Text without an ampersand decodes to itself. */
  lemma {:induction false} PlainTextStays(text: Bytes, s: Bytes)
    requires '&' !in text
    ensures Decoded(text + s) == text + Decoded(s)
  {
    hide Decoded;
    if text == [] {
      assert text + s == s && text + Decoded(s) == Decoded(s);
    } else {
      DecodedUnfolds(text + s);
      assert (text + s)[1..] == text[1..] + s;
      PlainTextStays(text[1..], s);
      assert [text[0]] + (text[1..] + Decoded(s)) == text + Decoded(s);
    }
  }

  lemma NumericTextIsPlain(base: Base, x: ByteChar, digits: Bytes)
    requires (x == 'x' || x == 'X') && digits != [] && NumberIn(base, digits).Some?
    ensures var entity := NumericText(base, x, digits);
      && ';' !in entity && '&' !in entity && NumericEntity(entity) == ScalarIn(base, digits)
      && NamedEntity(Lower(entity)).None?
  {
    hide NumberIn, ScalarIn;
    DigitsHaveNoSemicolon(base, digits);
    var entity := NumericText(base, x, digits);
    assert base.Ten? ==> entity[1..] == digits && entity[1] == digits[0];
    assert base.Sixteen? ==> entity[2..] == digits;
    assert Lower(entity)[0] == '#';
  }

  /** An entity that is too long or stands for nothing is not read as one. */
  lemma UnknownEntityStays(entity: Bytes, s: Bytes)
    requires ';' !in entity && '&' !in entity
    requires |entity| > MAXIMUM_ENTITY_LENGTH || Replacement(entity).None?
    ensures Decoded(['&'] + entity + [';'] + s) == ['&'] + entity + [';'] + Decoded(s)
  {
    hide Decoded, Replacement;
    var whole, rest := ['&'] + entity + [';'] + s, entity + [';'];
    FindAfter(';', entity, s);
    assert whole[1..] == entity + ([';'] + s);
    assert whole[1..][..|entity|] == entity;
    DecodedUnfolds(whole);
    assert whole[1..] == rest + s;
    PlainTextStays(rest, s);
    assert ['&'] + (rest + Decoded(s)) == ['&'] + entity + [';'] + Decoded(s);
  }

  /** Every numeric reference, in either base and with any leading zeros: it becomes its
      scalar if it has at most 32 bytes and names one, and stays as it is otherwise. */
  lemma NumericReferenceExactly(base: Base, x: ByteChar, digits: Bytes, s: Bytes)
    requires (x == 'x' || x == 'X') && digits != [] && NumberIn(base, digits).Some?
    ensures var entity, number := NumericText(base, x, digits), NumberIn(base, digits).value;
      Decoded(['&'] + entity + [';'] + s) ==
        (if |entity| <= 32 && IsScalar(number) then EncodeScalar(number) else ['&'] + entity + [';'])
        + Decoded(s)
  {
    hide Decoded, NumberIn, NumericText, EncodeScalar;
    var entity := NumericText(base, x, digits);
    NumericTextIsPlain(base, x, digits);
    if |entity| <= MAXIMUM_ENTITY_LENGTH && Replacement(entity).Some? {
      EntityInFront(entity, s);
    } else {
      UnknownEntityStays(entity, s);
    }
  }

  /** A reference to a surrogate or beyond the last scalar stays as it is. */
  lemma OtherReferencesStay(base: Base, n: nat, s: Bytes)
    requires !IsScalar(n)
    ensures var reference := ['&'] + NumericText(base, 'x', DigitsOf(base, n)) + [';'];
      Decoded(reference + s) == reference + Decoded(s)
  {
    hide Decoded, NumericText;
    DigitsOfReadBack(base, n);
    NumericReferenceExactly(base, 'x', DigitsOf(base, n), s);
  }

  /** The five entities that XML 1.0, section 4.6 predefines. */
  const PREDEFINED: map<string, ByteChar> := map["amp" := '&', "lt" := '<', "gt" := '>', "apos" := '\'', "quot" := '"']

  lemma NamedEntityIsPredefined(name: Bytes)
    ensures NamedEntity(name) == if name in PREDEFINED then Some(PREDEFINED[name]) else None
  {
    assert |"amp"| == |['a', 'm', 'p']| == 3 && |"apos"| == 4 && |"quot"| == 4 && |"lt"| == 2 && |"gt"| == 2;
    assert "amp" == ['a', 'm', 'p'] && "apos" == ['a', 'p', 'o', 's'] && "quot" == ['q', 'u', 'o', 't'];
    assert "lt" == ['l', 't'] && "gt" == ['g', 't'];
  }

  /** A name between `&` and `;` stands for its character if it is predefined, in letters
      of either case, and stays as it is otherwise. */
  lemma NamedReferenceExactly(name: Bytes, s: Bytes)
    requires name != [] && name[0] != '#' && ';' !in name && '&' !in name
    ensures Decoded(['&'] + name + [';'] + s) ==
      (if Lower(name) in PREDEFINED then [PREDEFINED[Lower(name)]] else ['&'] + name + [';']) + Decoded(s)
  {
    hide Decoded, NamedEntity, Lower;
    NamedEntityIsPredefined(Lower(name));
    if NamedEntity(Lower(name)).Some? {
      NamedHasNoSemicolon(name);
      EntityInFront(name, s);
    } else {
      UnknownEntityStays(name, s);
    }
  }

  /** The digits are those of hexadecimal notation, in either case. */
  lemma DigitsMean(n: nat)
    requires n < 16
    ensures DigitIn(Sixteen, "0123456789abcdef"[n]) == DigitIn(Sixteen, "0123456789ABCDEF"[n]) == Some(n)
    ensures n < 10 ==> DigitIn(Ten, "0123456789"[n]) == Some(n)
  {}
}
