/** The two string notations of PDF content (ISO 32000-1, sections 7.3.4.2 and 7.3.4.3). */
module PdfStrings {
  import opened Optional
  import opened Utf8

  /** What a parser produced (None: refused) and how many bytes it took. */
  datatype Reading = Reading(value: Option<Bytes>, size: nat) {
    function Prefixed(front: Bytes, taken: nat): Reading {
      Reading(if value.Some? then Some(front + value.value) else None, taken + size)
    }
  }

  // ---- Literal strings -------------------------------------------------------------

  predicate IsOctal(c: ByteChar) { '0' <= c <= '7' }

  function OctalValue(c: ByteChar): nat
    requires IsOctal(c)
  {
    c as int - '0' as int
  }

  datatype Escape = Escape(produced: Bytes, size: nat)

  /** Up to `most` octal digits after the value read so far; the value is cut to a byte. */
  function OctalEscape(s: Bytes, value: nat, most: nat): (e: Escape)
    ensures e.size <= |s|
  {
    if most == 0 || s == [] || !IsOctal(s[0]) then Escape([Byte(value % 256)], 0) else
      var rest := OctalEscape(s[1..], value * 8 + OctalValue(s[0]), most - 1);
      rest.(size := rest.size + 1)
  }

  /** What follows a backslash. */
  function EscapeAt(s: Bytes): (e: Escape)
    ensures e.size <= |s|
  {
    if s == [] then Escape([], 0)
    else if s[0] == 'n' || s[0] == 'r' then Escape(['\n'], 1)
    else if s[0] == 't' then Escape(['\t'], 1)
    else if s[0] == 'b' || s[0] == 'f' || s[0] == '\n' then Escape([], 1)
    else if s[0] == '\r' then Escape([], if |s| > 1 && s[1] == '\n' then 2 else 1)
    else if IsOctal(s[0]) then
      var more := OctalEscape(s[1..], OctalValue(s[0]), 2);
      more.(size := more.size + 1)
    else Escape([s[0]], 1)
  }

  /** The string's bytes after its opening parenthesis, at nesting `depth`. */
  function LiteralBody(s: Bytes, depth: nat): (r: Reading)
    requires depth > 0
    ensures r.size <= |s|
    decreases |s|
  {
    if s == [] then Reading(None, 0)
    else if s[0] == '\\' then
      var e := EscapeAt(s[1..]);
      LiteralBody(s[1 + e.size..], depth).Prefixed(e.produced, 1 + e.size)
    else if s[0] == ')' && depth == 1 then Reading(Some([]), 1)
    else
      var inside := if s[0] == '(' then depth + 1 else if s[0] == ')' then depth - 1 else depth;
      LiteralBody(s[1..], inside).Prefixed([s[0]], 1)
  }

  /** Up to two more octal digits. */
  method ReadOctal(text: Bytes, offset: nat, first: nat) returns (value: nat, next: nat)
    requires offset <= |text|
    ensures offset <= next && OctalEscape(text[offset..], first, 2) == Escape([Byte(value % 256)], next - offset)
  {
    value, next := first, offset;
    var digits: nat := 1;
    while digits < 3 && next < |text| && IsOctal(text[next])
      invariant 1 <= digits <= 3 && offset + digits - 1 == next <= |text|
      invariant OctalEscape(text[offset..], first, 2)
        == (var more := OctalEscape(text[next..], value, 3 - digits); more.(size := more.size + digits - 1))
    {
      assert text[next..][1..] == text[next + 1..];
      value := value * 8 + OctalValue(text[next]);
      next := next + 1;
      digits := digits + 1;
    }
  }

  method AppendEscaped(text: Bytes, offset: nat, output: Bytes) returns (extended: Bytes, next: nat)
    requires offset <= |text|
    ensures var e := EscapeAt(text[offset..]); extended == output + e.produced && next == offset + e.size
  {
    hide OctalEscape;
    extended, next := output, offset;
    if offset == |text| {
      return;
    }
    var c := text[offset];
    next := offset + 1;
    ghost var rest := text[offset..];
    assert rest[1..] == text[next..];
    match c
    case 'n' => extended := output + ['\n'];
    case 'r' => extended := output + ['\n'];
    case 't' => extended := output + ['\t'];
    case 'b' =>
    case 'f' =>
    case '\n' =>
    case '\r' =>
      if next < |text| && text[next] == '\n' {
        next := next + 1;
      }
    case _ =>
      if IsOctal(c) {
        var value;
        value, next := ReadOctal(text, next, OctalValue(c));
        extended := output + [Byte(value % 256)];
      } else {
        extended := output + [c];
      }
  }

  /** One turn of the parser's loop. */
  lemma LiteralStep(s: Bytes, depth: nat)
    requires depth > 0 && s != []
    ensures s[0] == '\\' ==> var e := EscapeAt(s[1..]);
      1 + e.size <= |s| && LiteralBody(s, depth) == LiteralBody(s[1 + e.size..], depth).Prefixed(e.produced, 1 + e.size)
    ensures s[0] == ')' && depth == 1 ==> LiteralBody(s, depth) == Reading(Some([]), 1)
    ensures s[0] == ')' && depth > 1 ==> LiteralBody(s, depth) == LiteralBody(s[1..], depth - 1).Prefixed([s[0]], 1)
    ensures s[0] == '(' ==> LiteralBody(s, depth) == LiteralBody(s[1..], depth + 1).Prefixed([s[0]], 1)
    ensures s[0] !in ['\\', '(', ')'] ==> LiteralBody(s, depth) == LiteralBody(s[1..], depth).Prefixed([s[0]], 1)
  {}

  lemma LiteralEnds(bytes: Bytes, size: nat, depth: nat)
    requires depth > 0
    ensures LiteralBody([], depth).Prefixed(bytes, size) == Reading(None, size)
    ensures Reading(Some([]), 1).Prefixed(bytes, size) == Reading(Some(bytes), size + 1)
  {
    assert bytes + [] == bytes;
  }

  method LiteralString(text: Bytes, offset: nat) returns (value: Option<Bytes>, next: nat)
    requires offset <= |text|
    ensures if offset < |text| && text[offset] == '(' then
        var r := LiteralBody(text[offset + 1..], 1); value == r.value && next == offset + 1 + r.size
      else value == None && next == offset
  {
    hide EscapeAt, LiteralBody, Reading.Prefixed;
    if offset == |text| || text[offset] != '(' {
      return None, offset;
    }
    next := offset + 1;
    var bytes: Bytes, depth: nat := [], 1;
    ghost var whole := LiteralBody(text[next..], 1);
    PrefixNothing(whole);
    while next < |text| && depth > 0
      invariant offset < next <= |text|
      invariant depth > 0 ==> whole == LiteralBody(text[next..], depth).Prefixed(bytes, next - offset - 1)
      invariant depth == 0 ==> whole == Reading(Some(bytes), next - offset - 1)
    {
      ghost var rest, taken := text[next..], next - offset - 1;
      var c := text[next];
      next := next + 1;
      assert rest[1..] == text[next..];
      LiteralStep(rest, depth);
      if c == '\\' {
        ghost var e := EscapeAt(text[next..]);
        assert text[next + e.size..] == rest[1 + e.size..];
        PrefixTwice(LiteralBody(rest[1 + e.size..], depth), bytes, taken, e.produced, 1 + e.size);
        bytes, next := AppendEscaped(text, next, bytes);
      } else {
        var last := c == ')' && depth == 1;
        depth := if c == '(' then depth + 1 else if c == ')' then depth - 1 else depth;
        if last {
          LiteralEnds(bytes, taken, 1);
        } else {
          PrefixTwice(LiteralBody(text[next..], depth), bytes, taken, [c], 1);
          bytes := bytes + [c];
        }
      }
    }
    if depth > 0 { LiteralEnds(bytes, next - offset - 1, depth); }
    value := if depth != 0 then None else Some(bytes);
  }

  lemma PrefixTwice(r: Reading, first: Bytes, size: nat, second: Bytes, more: nat)
    ensures r.Prefixed(second, more).Prefixed(first, size) == r.Prefixed(first + second, size + more)
  {
    if r.value.Some? { assert first + (second + r.value.value) == first + second + r.value.value; }
  }

  lemma PrefixNothing(r: Reading)
    ensures r.Prefixed([], 0) == r
  {
    if r.value.Some? { assert [] + r.value.value == r.value.value; }
  }

  // ---- Writing literal strings --------------------------------------------------------

  /** The ways to write a literal string: plain bytes, escapes, a continued line,
      and balanced unescaped parentheses. */
  datatype Pieces =
    | End
    | Plain(c: ByteChar, rest: Pieces)
    | Escaped(c: ByteChar, rest: Pieces)
    | Octal(c: ByteChar, rest: Pieces)
    | Newline(rest: Pieces)
    | Tab(rest: Pieces)
    | Continued(rest: Pieces)
    | Nested(inner: Pieces, rest: Pieces)

  predicate Writable(p: Pieces) {
    match p
    case End => true
    case Plain(c, rest) => c != '\\' && c != '(' && c != ')' && Writable(rest)
    case Escaped(c, rest) => StandsForItself(c) && Writable(rest)
    case Octal(_, rest) => Writable(rest)
    case Newline(rest) => Writable(rest)
    case Tab(rest) => Writable(rest)
    case Continued(rest) => Writable(rest)
    case Nested(inner, rest) => Writable(inner) && Writable(rest)
  }

  predicate StandsForItself(c: ByteChar) {
    !IsOctal(c) && c != 'n' && c != 'r' && c != 't' && c != 'b' && c != 'f' && c != '\n' && c != '\r'
  }

  function OctalDigits(c: ByteChar): Bytes {
    ['\\', Byte(48 + c as int / 64), Byte(48 + c as int / 8 % 8), Byte(48 + c as int % 8)]
  }

  function Print(p: Pieces): Bytes {
    match p
    case End => []
    case Plain(c, rest) => [c] + Print(rest)
    case Escaped(c, rest) => ['\\', c] + Print(rest)
    case Octal(c, rest) => OctalDigits(c) + Print(rest)
    case Newline(rest) => ['\\', 'n'] + Print(rest)
    case Tab(rest) => ['\\', 't'] + Print(rest)
    case Continued(rest) => ['\\', '\n'] + Print(rest)
    case Nested(inner, rest) => ['('] + (Print(inner) + ([')'] + Print(rest)))
  }

  /** The bytes that the written string stands for. */
  function Meaning(p: Pieces): Bytes {
    match p
    case End => []
    case Plain(c, rest) => [c] + Meaning(rest)
    case Escaped(c, rest) => [c] + Meaning(rest)
    case Octal(c, rest) => [c] + Meaning(rest)
    case Newline(rest) => ['\n'] + Meaning(rest)
    case Tab(rest) => ['\t'] + Meaning(rest)
    case Continued(rest) => Meaning(rest)
    case Nested(inner, rest) => ['('] + (Meaning(inner) + ([')'] + Meaning(rest)))
  }

  /** A backslash with its escape in front is read as what it produces. */
  lemma EscapeInFront(escape: Bytes, produced: Bytes, s: Bytes, depth: nat)
    requires depth > 0 && EscapeAt(escape + s) == Escape(produced, |escape|)
    ensures LiteralBody(['\\'] + escape + s, depth) == LiteralBody(s, depth).Prefixed(produced, 1 + |escape|)
  {
    hide EscapeAt;
    var whole := ['\\'] + escape + s;
    assert whole[1..] == escape + s;
    assert whole[1 + |escape|..] == s;
  }

  lemma CharacterInFront(c: ByteChar, s: Bytes, depth: nat)
    requires depth > 0 && c != '\\'
    ensures c == ')' && depth == 1 ==> LiteralBody([c] + s, depth) == Reading(Some([]), 1)
    ensures c == '(' ==> LiteralBody([c] + s, depth) == LiteralBody(s, depth + 1).Prefixed([c], 1)
    ensures c == ')' && depth > 1 ==> LiteralBody([c] + s, depth) == LiteralBody(s, depth - 1).Prefixed([c], 1)
    ensures c != '(' && c != ')' ==> LiteralBody([c] + s, depth) == LiteralBody(s, depth).Prefixed([c], 1)
  {
    hide LiteralBody, Reading.Prefixed;
    assert ([c] + s)[1..] == s;
    LiteralStep([c] + s, depth);
  }

  lemma ThreeOctalDigits(a: ByteChar, b: ByteChar, c: ByteChar, s: Bytes)
    requires IsOctal(a) && IsOctal(b) && IsOctal(c)
    ensures EscapeAt([a, b, c] + s)
      == Escape([Byte((OctalValue(a) * 64 + OctalValue(b) * 8 + OctalValue(c)) % 256)], 3)
  {
    var whole, two, one := [a, b, c] + s, [b, c] + s, [c] + s;
    var first := OctalValue(a);
    var second := first * 8 + OctalValue(b);
    var third := second * 8 + OctalValue(c);
    assert whole[1..] == two && two[1..] == one && one[1..] == s;
    assert OctalEscape(s, third, 0) == Escape([Byte(third % 256)], 0);
    assert OctalEscape(one, second, 1) == Escape([Byte(third % 256)], 1);
    assert OctalEscape(two, first, 2) == Escape([Byte(third % 256)], 2);
  }

  lemma DigitsOfByte(c: ByteChar)
    ensures var digits := OctalDigits(c);
      && |digits| == 4 && digits[1..] == [digits[1], digits[2], digits[3]]
      && IsOctal(digits[1]) && IsOctal(digits[2]) && IsOctal(digits[3])
      && OctalValue(digits[1]) * 64 + OctalValue(digits[2]) * 8 + OctalValue(digits[3]) == c as int
  {
    var n := c as int;
    assert n / 64 * 64 + n / 8 % 8 * 8 + n % 8 == n;
    hide IsOctal, OctalValue;
    DigitByte(n / 64);
    DigitByte(n / 8 % 8);
    DigitByte(n % 8);
  }

  lemma DigitByte(d: nat)
    requires d < 8
    ensures IsOctal(Byte(48 + d)) && OctalValue(Byte(48 + d)) == d
  {}

  lemma OctalReadsBack(c: ByteChar, s: Bytes)
    ensures EscapeAt(OctalDigits(c)[1..] + s) == Escape([c], 3)
  {
    hide OctalDigits, OctalEscape, EscapeAt, IsOctal, OctalValue;
    DigitsOfByte(c);
    var digits := OctalDigits(c);
    ThreeOctalDigits(digits[1], digits[2], digits[3], s);
  }

  lemma EscapeReadsBack(c: ByteChar, s: Bytes)
    ensures StandsForItself(c) ==> EscapeAt([c] + s) == Escape([c], 1)
    ensures EscapeAt(['n'] + s) == Escape(['\n'], 1) && EscapeAt(['t'] + s) == Escape(['\t'], 1)
    ensures EscapeAt(['\n'] + s) == Escape([], 1)
  {}

  /** Reading what was written, at any nesting depth and in front of anything. */
  lemma {:induction false} PiecesReadBack(p: Pieces, s: Bytes, depth: nat)
    requires Writable(p) && depth > 0
    ensures LiteralBody(Print(p) + s, depth) == LiteralBody(s, depth).Prefixed(Meaning(p), |Print(p)|)
    decreases p, 1
  {
    hide LiteralBody, EscapeAt, Reading.Prefixed, StandsForItself, OctalDigits;
    var after := LiteralBody(s, depth);
    match p
    case End =>
      assert Print(p) + s == s;
      PrefixNothing(after);
    case Plain(c, rest) =>
      CharacterInFront(c, Print(rest) + s, depth);
      Continue([c], [c], rest, s, depth, depth);
    case Escaped(c, rest) =>
      EscapeReadsBack(c, Print(rest) + s);
      EscapeInFront([c], [c], Print(rest) + s, depth);
      assert ['\\'] + [c] == ['\\', c];
      Continue(['\\', c], [c], rest, s, depth, depth);
    case Octal(c, rest) =>
      OctalReadsBack(c, Print(rest) + s);
      OctalShape(c);
      EscapeInFront(OctalDigits(c)[1..], [c], Print(rest) + s, depth);
      Continue(OctalDigits(c), [c], rest, s, depth, depth);
    case Newline(rest) =>
      EscapeReadsBack('\\', Print(rest) + s);
      EscapeInFront(['n'], ['\n'], Print(rest) + s, depth);
      assert ['\\'] + ['n'] == ['\\', 'n'];
      Continue(['\\', 'n'], ['\n'], rest, s, depth, depth);
    case Tab(rest) =>
      EscapeReadsBack('\\', Print(rest) + s);
      EscapeInFront(['t'], ['\t'], Print(rest) + s, depth);
      assert ['\\'] + ['t'] == ['\\', 't'];
      Continue(['\\', 't'], ['\t'], rest, s, depth, depth);
    case Continued(rest) =>
      EscapeReadsBack('\\', Print(rest) + s);
      EscapeInFront(['\n'], [], Print(rest) + s, depth);
      assert ['\\'] + ['\n'] == ['\\', '\n'];
      Continue(['\\', '\n'], [], rest, s, depth, depth);
      assert [] + Meaning(rest) == Meaning(rest);
    case Nested(inner, rest) =>
      NestedReadsBack(inner, rest, s, depth);
  }

  lemma OctalShape(c: ByteChar)
    ensures |OctalDigits(c)| == 4 && OctalDigits(c) == ['\\'] + OctalDigits(c)[1..]
  {}

  /** One piece read, then the rest of the pieces. */
  lemma {:induction false} Continue(front: Bytes, produced: Bytes, rest: Pieces, s: Bytes, outer: nat, depth: nat)
    requires Writable(rest) && outer > 0 && depth > 0
    requires LiteralBody(front + (Print(rest) + s), outer)
      == LiteralBody(Print(rest) + s, depth).Prefixed(produced, |front|)
    ensures LiteralBody(front + Print(rest) + s, outer)
      == LiteralBody(s, depth).Prefixed(produced + Meaning(rest), |front + Print(rest)|)
    decreases rest, 2
  {
    hide LiteralBody, Print, Writable, Meaning, Reading.Prefixed;
    PiecesReadBack(rest, s, depth);
    PrefixTwice(LiteralBody(s, depth), produced, |front|, Meaning(rest), |Print(rest)|);
    assert front + Print(rest) + s == front + (Print(rest) + s);
  }

  lemma {:induction false} NestedReadsBack(inner: Pieces, rest: Pieces, s: Bytes, depth: nat)
    requires Writable(inner) && Writable(rest) && depth > 0
    ensures var p := Nested(inner, rest);
      LiteralBody(Print(p) + s, depth) == LiteralBody(s, depth).Prefixed(Meaning(p), |Print(p)|)
    decreases Nested(inner, rest), 0
  {
    hide LiteralBody, Writable, Reading.Prefixed;
    var tail, after := [')'] + Print(rest), LiteralBody(s, depth);
    var tailMeaning := [')'] + Meaning(rest);
    CharacterInFront(')', Print(rest) + s, depth + 1);
    Continue([')'], [')'], rest, s, depth + 1, depth);
    PiecesReadBack(inner, tail + s, depth + 1);
    PrefixTwice(after, Meaning(inner), |Print(inner)|, tailMeaning, |tail|);
    CharacterInFront('(', Print(inner) + (tail + s), depth);
    PrefixTwice(after, ['('], 1, Meaning(inner) + tailMeaning, |Print(inner) + tail|);
    assert ['('] + (Print(inner) + tail) + s == ['('] + (Print(inner) + (tail + s)) ;
  }

  /** A written string, closed, is read in full: exactly its bytes, and up to and
      including the closing parenthesis. */
  lemma LiteralReadsBack(p: Pieces, s: Bytes)
    requires Writable(p)
    ensures LiteralBody(Print(p) + ([')'] + s), 1) == Reading(Some(Meaning(p)), |Print(p)| + 1)
  {
    hide LiteralBody, Reading.Prefixed;
    PiecesReadBack(p, [')'] + s, 1);
    CharacterInFront(')', s, 1);
    LiteralEnds(Meaning(p), |Print(p)|, 1);
  }

  /** Any bytes at all, with only backslashes and parentheses escaped. */
  function EscapeAll(bytes: Bytes): Pieces {
    if bytes == [] then End
    else if bytes[0] in ['\\', '(', ')'] then Escaped(bytes[0], EscapeAll(bytes[1..]))
    else Plain(bytes[0], EscapeAll(bytes[1..]))
  }

  lemma {:induction false} EscapeAllMeansItself(bytes: Bytes)
    ensures Writable(EscapeAll(bytes)) && Meaning(EscapeAll(bytes)) == bytes
  {
    if bytes != [] {
      EscapeAllMeansItself(bytes[1..]);
      assert [bytes[0]] + bytes[1..] == bytes;
    }
  }

  // ---- Hexadecimal strings ----------------------------------------------------------------

  predicate IsWhitespace(c: ByteChar) {
    c == '\0' || c == '\t' || c == '\n' || c as int == 12 || c == '\r' || c == ' '
  }

  type Nibble = n: nat | n < 16

  function HexValue(c: ByteChar): Option<Nibble> {
    if '0' <= c <= '9' then Some(c as int - '0' as int)
    else if 'a' <= c <= 'f' then Some(c as int - 'a' as int + 10)
    else if 'A' <= c <= 'F' then Some(c as int - 'A' as int + 10)
    else None
  }

  function ByteOf(high: Nibble, low: Nibble): ByteChar { Byte(16 * high as int + low as int) }

  /** Nibbles two by two; an odd last one counts as the high half. */
  function Paired(nibbles: seq<Nibble>): Bytes {
    if nibbles == [] then []
    else if |nibbles| == 1 then [ByteOf(nibbles[0], 0)]
    else [ByteOf(nibbles[0], nibbles[1])] + Paired(nibbles[2..])
  }

  /** The digits of a text, in order, without the white space; None at any other character. */
  function Nibbles(text: Bytes): Option<seq<Nibble>> {
    if text == [] then Some([])
    else if IsWhitespace(text[0]) then Nibbles(text[1..])
    else if HexValue(text[0]).None? || Nibbles(text[1..]).None? then None
    else Some([HexValue(text[0]).value] + Nibbles(text[1..]).value)
  }

  /** The nibbles a parser collected (None: refused) and how many bytes it took. */
  datatype HexReading = HexReading(nibbles: Option<seq<Nibble>>, size: nat) {
    function After(front: seq<Nibble>, taken: nat): HexReading {
      HexReading(if nibbles.Some? then Some(front + nibbles.value) else None, taken + size)
    }
  }

  /** The digits after the opening bracket, up to the closing one or the end. */
  function HexBody(s: Bytes): (r: HexReading)
    ensures r.size <= |s|
  {
    if s == [] then HexReading(Some([]), 0)
    else if s[0] == '>' then HexReading(Some([]), 1)
    else if IsWhitespace(s[0]) then HexBody(s[1..]).After([], 1)
    else if HexValue(s[0]).None? then HexReading(None, 1)
    else HexBody(s[1..]).After([HexValue(s[0]).value], 1)
  }

  /** The parser's bytes and pending high half stand for the nibbles it has read. */
  predicate PairedSoFar(read: seq<Nibble>, bytes: Bytes, high: Option<Nibble>) {
    if high.Some? then |read| % 2 == 1 && read[|read| - 1] == high.value && bytes == Paired(read[..|read| - 1])
    else |read| % 2 == 0 && bytes == Paired(read)
  }

  function Flushed(bytes: Bytes, high: Option<Nibble>): Bytes {
    if high.Some? then bytes + [ByteOf(high.value, 0)] else bytes
  }

  lemma {:induction false} PairedAppend(read: seq<Nibble>, more: seq<Nibble>)
    requires |read| % 2 == 0
    ensures Paired(read + more) == Paired(read) + Paired(more)
  {
    hide ByteOf;
    if read == [] {
      assert read + more == more;
    } else {
      PairedAppend(read[2..], more);
      var first := [ByteOf(read[0], read[1])];
      var whole := read + more;
      assert whole[2..] == read[2..] + more && whole[0] == read[0] && whole[1] == read[1];
      assert Paired(whole) == first + Paired(whole[2..]);
      assert Paired(read) == first + Paired(read[2..]);
      assert first + (Paired(read[2..]) + Paired(more)) == first + Paired(read[2..]) + Paired(more);
    }
  }

  lemma FlushedIsPaired(read: seq<Nibble>, bytes: Bytes, high: Option<Nibble>)
    requires PairedSoFar(read, bytes, high)
    ensures Flushed(bytes, high) == Paired(read)
  {
    if high.Some? {
      assert read == read[..|read| - 1] + [high.value];
      PairedAppend(read[..|read| - 1], [high.value]);
    }
  }

  lemma OneMoreNibble(read: seq<Nibble>, bytes: Bytes, high: Option<Nibble>, n: Nibble)
    requires PairedSoFar(read, bytes, high)
    ensures high.None? ==> PairedSoFar(read + [n], bytes, Some(n))
    ensures high.Some? ==> PairedSoFar(read + [n], bytes + [ByteOf(high.value, n)], None)
  {
    hide Paired, ByteOf;
    if high.None? {
      assert (read + [n])[..|read|] == read;
    } else {
      assert read + [n] == read[..|read| - 1] + [high.value, n];
      PairedAppend(read[..|read| - 1], [high.value, n]);
      PairedTwo(high.value, n);
    }
  }

  lemma PairedTwo(high: Nibble, low: Nibble)
    ensures Paired([high, low]) == [ByteOf(high, low)]
  {
    assert [high, low][2..] == [];
  }

  lemma AfterTwice(r: HexReading, first: seq<Nibble>, size: nat, second: seq<Nibble>, more: nat)
    ensures r.After(second, more).After(first, size) == r.After(first + second, size + more)
    ensures r.After([], 0) == r
  {
    if r.nibbles.Some? {
      assert first + (second + r.nibbles.value) == first + second + r.nibbles.value;
      assert [] + r.nibbles.value == r.nibbles.value;
    }
  }

  lemma HexStep(s: Bytes)
    requires s != []
    ensures s[0] == '>' ==> HexBody(s) == HexReading(Some([]), 1)
    ensures s[0] != '>' && IsWhitespace(s[0]) ==> HexBody(s) == HexBody(s[1..]).After([], 1)
    ensures s[0] != '>' && !IsWhitespace(s[0]) ==>
      HexBody(s) ==
        if HexValue(s[0]).None? then HexReading(None, 1) else HexBody(s[1..]).After([HexValue(s[0]).value], 1)
  {}

  lemma HexEnds(read: seq<Nibble>, size: nat)
    ensures HexBody([]).After(read, size) == HexReading(Some(read), size)
    ensures HexReading(Some([]), 1).After(read, size) == HexReading(Some(read), size + 1)
    ensures HexReading(None, 1).After(read, size) == HexReading(None, size + 1)
  {
    assert read + [] == read;
  }

  method HexString(text: Bytes, offset: nat) returns (value: Option<Bytes>, next: nat)
    requires offset <= |text|
    ensures if offset + 1 < |text| && text[offset] == '<' && text[offset + 1] != '<' then
        var r := HexBody(text[offset + 1..]);
        next == offset + 1 + r.size && value == if r.nibbles.Some? then Some(Paired(r.nibbles.value)) else None
      else value == None && next == offset
  {
    hide Paired, HexBody, HexReading.After, IsWhitespace, HexValue, PairedSoFar;
    if offset + 1 >= |text| || text[offset] != '<' || text[offset + 1] == '<' {
      return None, offset;
    }
    next := offset + 1;
    ghost var whole := HexBody(text[next..]);
    ghost var read: seq<Nibble> := [];
    var bytes: Bytes, high: Option<Nibble> := [], None;
    NothingPaired();
    AfterTwice(whole, [], 0, [], 0);
    while next < |text|
      invariant offset < next <= |text|
      invariant whole == HexBody(text[next..]).After(read, next - offset - 1)
      invariant PairedSoFar(read, bytes, high)
    {
      ghost var rest, taken := text[next..], next - offset - 1;
      HexStep(rest);
      HexEnds(read, taken);
      assert rest[1..] == text[next + 1..];
      var c := text[next];
      next := next + 1;
      if c == '>' {
        FlushedIsPaired(read, bytes, high);
        return Some(Flushed(bytes, high)), next;
      }
      if IsWhitespace(c) {
        AfterTwice(HexBody(text[next..]), read, taken, [], 1);
        assert read + [] == read;
        continue;
      }
      var nibble := HexValue(c);
      if nibble.None? {
        return None, next;
      }
      AfterTwice(HexBody(text[next..]), read, taken, [nibble.value], 1);
      OneMoreNibble(read, bytes, high, nibble.value);
      read := read + [nibble.value];
      if high.None? {
        high := nibble;
      } else {
        bytes := bytes + [ByteOf(high.value, nibble.value)];
        high := None;
      }
    }
    HexEnds(read, next - offset - 1);
    FlushedIsPaired(read, bytes, high);
    value := Some(Flushed(bytes, high));
  }

  lemma NothingPaired()
    ensures PairedSoFar([], [], None)
  {}

  // ---- Writing hexadecimal strings ------------------------------------------------------------

  function NibblesOf(bytes: Bytes): (nibbles: seq<Nibble>)
    ensures |nibbles| % 2 == 0
  {
    if bytes == [] then [] else [bytes[0] as int / 16, bytes[0] as int % 16] + NibblesOf(bytes[1..])
  }

  lemma {:induction false} PairedReadsBack(bytes: Bytes)
    ensures Paired(NibblesOf(bytes)) == bytes
  {
    if bytes != [] {
      var two: seq<Nibble> := [bytes[0] as int / 16, bytes[0] as int % 16];
      PairedAppend(two, NibblesOf(bytes[1..]));
      PairedReadsBack(bytes[1..]);
      assert Paired(two) == [bytes[0]];
      assert [bytes[0]] + bytes[1..] == bytes;
    }
  }

  /** Digits of either case, spread over white space in any way, are all read. */
  lemma {:induction false} DigitsReadBack(digits: Bytes, s: Bytes)
    requires Nibbles(digits).Some?
    ensures HexBody(digits + (['>'] + s)) == HexReading(Nibbles(digits), |digits| + 1)
  {
    hide HexReading.After, HexBody;
    var whole := digits + (['>'] + s);
    HexStep(whole);
    if digits == [] {
    } else {
      assert whole[1..] == digits[1..] + (['>'] + s);
      DigitsReadBack(digits[1..], s);
      AfterDigit(digits, s);
    }
  }

  lemma AfterDigit(digits: Bytes, s: Bytes)
    requires digits != [] && Nibbles(digits).Some?
    ensures Nibbles(digits[1..]).Some? && digits[0] != '>'
    ensures
      HexReading(Nibbles(digits[1..]), |digits|)
        .After(if IsWhitespace(digits[0]) then [] else [HexValue(digits[0]).value], 1)
      == HexReading(Nibbles(digits), |digits| + 1)
  {
    assert [] + Nibbles(digits[1..]).value == Nibbles(digits[1..]).value;
  }

  /** Any bytes, in any hexadecimal spelling, read back. */
  lemma HexReadsBack(digits: Bytes, bytes: Bytes, s: Bytes)
    requires Nibbles(digits) == Some(NibblesOf(bytes))
    ensures var r := HexBody(digits + (['>'] + s));
      r.size == |digits| + 1 && r.nibbles.Some? && Paired(r.nibbles.value) == bytes
  {
    hide HexBody, Nibbles, Paired;
    DigitsReadBack(digits, s);
    PairedReadsBack(bytes);
  }

  /** A missing last digit counts as zero. */
  lemma OddDigitReadsAsHigh(digits: Bytes, bytes: Bytes, high: Nibble, s: Bytes)
    requires Nibbles(digits) == Some(NibblesOf(bytes) + [high])
    ensures var r := HexBody(digits + (['>'] + s));
      r.size == |digits| + 1 && r.nibbles.Some? && Paired(r.nibbles.value) == bytes + [ByteOf(high, 0)]
  {
    hide HexBody, Nibbles;
    DigitsReadBack(digits, s);
    PairedReadsBack(bytes);
    PairedAppend(NibblesOf(bytes), [high]);
  }

  /** The digits are those of hexadecimal notation, in either case. */
  lemma HexDigitsMean(n: Nibble)
    ensures HexValue("0123456789abcdef"[n]) == HexValue("0123456789ABCDEF"[n]) == Some(n)
  {}
}
