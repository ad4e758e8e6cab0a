/**
 Literal strings as ISO 32000-1, section 7.3.4.2 reads them, and exactly where the
 program's reader differs.
 */
module PdfStandard {
  import opened Optional
  import opened Utf8
  import opened PdfStrings

  const BACKSPACE: ByteChar := Byte(8)
  const FORM_FEED: ByteChar := Byte(12)

  /** How many octal digits, at most three, start the text. */
  function OctalDigitCount(s: Bytes): (n: nat)
    ensures n <= 3 && n <= |s| && forall i :: 0 <= i < n ==> IsOctal(s[i])
  {
    if |s| < 1 || !IsOctal(s[0]) then 0
    else if |s| < 2 || !IsOctal(s[1]) then 1
    else if |s| < 3 || !IsOctal(s[2]) then 2
    else 3
  }

  /** The value of one to three octal digits; high-order overflow is ignored. */
  function OctalCode(s: Bytes): ByteChar
    requires OctalDigitCount(s) > 0
  {
    var n := OctalDigitCount(s);
    if n == 1 then Byte(OctalValue(s[0]))
    else if n == 2 then Byte(OctalValue(s[0]) * 8 + OctalValue(s[1]))
    else Byte((OctalValue(s[0]) * 64 + OctalValue(s[1]) * 8 + OctalValue(s[2])) % 256)
  }

  /** An end-of-line marker: a line feed, a carriage return, or both. */
  function EndOfLineSize(s: Bytes): (n: nat)
    ensures n <= |s|
  {
    if s == [] then 0
    else if s[0] == '\n' then 1
    else if s[0] == '\r' then (if |s| > 1 && s[1] == '\n' then 2 else 1)
    else 0
  }

  /** Table 3: what follows a backslash; any other character stands for itself. */
  function StandardEscape(s: Bytes): (e: Escape)
    ensures e.size <= |s|
  {
    if s == [] then Escape([], 0)
    else if OctalDigitCount(s) > 0 then Escape([OctalCode(s)], OctalDigitCount(s))
    else if EndOfLineSize(s) > 0 then Escape([], EndOfLineSize(s))
    else
      match s[0]
      case 'n' => Escape(['\n'], 1)
      case 'r' => Escape(['\r'], 1)
      case 't' => Escape(['\t'], 1)
      case 'b' => Escape([BACKSPACE], 1)
      case 'f' => Escape([FORM_FEED], 1)
      case _ => Escape([s[0]], 1)
  }

  predicate IsLossy(c: ByteChar) { c == 'r' || c == 'b' || c == 'f' }

  /** The program's escapes are those of the standard for every character but `r`,
      `b` and `f`, whatever follows. */
  lemma LossyEscapes(c: ByteChar, rest: Bytes)
    ensures EscapeAt([c] + rest) == StandardEscape([c] + rest) <==> !IsLossy(c)
  {
    var s := [c] + rest;
    assert s[1..] == rest;
    if IsOctal(c) {
      OctalIsStandard(s);
    }
  }

  lemma OctalIsStandard(s: Bytes)
    requires s != [] && IsOctal(s[0])
    ensures EscapeAt(s) == Escape([OctalCode(s)], OctalDigitCount(s))
  {
    var first := OctalValue(s[0]);
    var one := s[1..];
    if one != [] && IsOctal(one[0]) {
      var second, two := first * 8 + OctalValue(s[1]), s[2..];
      assert one[1..] == two;
      if two != [] && IsOctal(two[0]) {
        var third := second * 8 + OctalValue(s[2]);
        assert two[1..] == s[3..];
        assert OctalEscape(s[3..], third, 0) == Escape([Byte(third % 256)], 0);
        assert OctalEscape(two, second, 1) == Escape([Byte(third % 256)], 1);
      } else {
        assert OctalEscape(two, second, 1) == Escape([Byte(second)], 0);
      }
    } else {
      assert OctalEscape(one, first, 2) == Escape([Byte(first)], 0);
    }
  }

  // ---- Whole strings -----------------------------------------------------------------

  /** A literal string by the standard: its escapes, and any end-of-line marker read
      as one line feed. */
  function StandardBody(s: Bytes, depth: nat): (r: Reading)
    requires depth > 0
    decreases |s|
  {
    if s == [] then Reading(None, 0)
    else if s[0] == '\\' then
      var e := StandardEscape(s[1..]);
      StandardBody(s[1 + e.size..], depth).Prefixed(e.produced, 1 + e.size)
    else if EndOfLineSize(s) > 0 then
      StandardBody(s[EndOfLineSize(s)..], depth).Prefixed(['\n'], EndOfLineSize(s))
    else if s[0] == ')' && depth == 1 then Reading(Some([]), 1)
    else
      StandardBody(s[1..], Inside(s[0], depth)).Prefixed([s[0]], 1)
  }

  function Inside(c: ByteChar, depth: nat): (inside: nat)
    requires depth > 0 && (c == ')' ==> depth > 1)
    ensures inside > 0
  {
    if c == '(' then depth + 1 else if c == ')' then depth - 1 else depth
  }

  /** Up to its end the string has none of the three escapes and no carriage return
      outside an escape. */
  predicate Faithful(s: Bytes, depth: nat)
    requires depth > 0
    decreases |s|
  {
    if s == [] then true
    else if s[0] == '\\' then
      (|s| > 1 ==> !IsLossy(s[1])) && Faithful(s[1 + EscapeAt(s[1..]).size..], depth)
    else if s[0] == '\r' then false
    else (s[0] == ')' && depth == 1) || Faithful(s[1..], Inside(s[0], depth))
  }

  /** One turn of both readers at a place where they agree. */
  lemma AgreeingTurn(s: Bytes, depth: nat)
    requires depth > 0 && s != [] && s[0] != '\r' && (s[0] == '\\' && |s| > 1 ==> !IsLossy(s[1]))
    ensures s[0] == '\\' ==>
      var e := EscapeAt(s[1..]);
      && |e.produced| <= 1 && 1 + e.size <= |s|
      && LiteralBody(s, depth) == LiteralBody(s[1 + e.size..], depth).Prefixed(e.produced, 1 + e.size)
      && StandardBody(s, depth) == StandardBody(s[1 + e.size..], depth).Prefixed(e.produced, 1 + e.size)
    ensures s[0] == ')' && depth == 1 ==>
      LiteralBody(s, depth) == StandardBody(s, depth) == Reading(Some([]), 1)
    ensures s[0] != '\\' && !(s[0] == ')' && depth == 1) ==>
      && LiteralBody(s, depth) == LiteralBody(s[1..], Inside(s[0], depth)).Prefixed([s[0]], 1)
      && StandardBody(s, depth) == StandardBody(s[1..], Inside(s[0], depth)).Prefixed([s[0]], 1)
  {
    hide OctalEscape, Reading.Prefixed;
    if s[0] == '\\' && |s| > 1 {
      LossyEscapes(s[1], s[2..]);
      assert [s[1]] + s[2..] == s[1..];
    }
    LiteralStep(s, depth);
  }

  /** Bytes that the standard has read and the program has dropped. */
  predicate IsDropped(queue: Bytes) {
    queue != [] && forall i :: 0 <= i < |queue| ==> queue[i] == BACKSPACE || queue[i] == FORM_FEED
  }

  /** One turn at an escape that the program reads differently. */
  lemma LossyTurn(s: Bytes, depth: nat)
    requires depth > 0 && |s| > 1 && s[0] == '\\' && IsLossy(s[1])
    ensures LiteralBody(s, depth) == LiteralBody(s[2..], depth).Prefixed(if s[1] == 'r' then ['\n'] else [], 2)
    ensures StandardBody(s, depth) == StandardBody(s[2..], depth).Prefixed([StandardByte(s[1])], 2)
  {
    hide Reading.Prefixed;
    LiteralStep(s, depth);
    assert EscapeAt(s[1..]).size == StandardEscape(s[1..]).size == 1;
  }

  function StandardByte(c: ByteChar): ByteChar
    requires IsLossy(c)
  {
    if c == 'r' then '\r' else if c == 'b' then BACKSPACE else FORM_FEED
  }

  /** One turn at a carriage return outside an escape. */
  lemma ReturnTurn(s: Bytes, depth: nat)
    requires depth > 0 && s != [] && s[0] == '\r'
    ensures LiteralBody(s, depth) == LiteralBody(s[1..], depth).Prefixed(['\r'], 1)
    ensures StandardBody(s, depth) == StandardBody(s[EndOfLineSize(s)..], depth).Prefixed(['\n'], EndOfLineSize(s))
  {
    hide Reading.Prefixed;
    LiteralStep(s, depth);
  }

  lemma PrefixedValue(r: Reading, front: Bytes, size: nat)
    ensures r.Prefixed(front, size).value == if r.value.Some? then Some(front + r.value.value) else None
  {}

  lemma NothingRead(depth: nat)
    requires depth > 0
    ensures LiteralBody([], depth).value == StandardBody([], depth).value == None
  {}

  /** Once a byte has been dropped, the program never catches up. */
  lemma {:induction false} NeverCatchesUp(s: Bytes, depth: nat, queue: Bytes)
    requires depth > 0 && IsDropped(queue)
    requires LiteralBody(s, depth).value.Some? && StandardBody(s, depth).value.Some?
    ensures queue + StandardBody(s, depth).value.value != LiteralBody(s, depth).value.value
    decreases |s|, 0
  {
    hide EscapeAt, StandardEscape, LiteralBody, StandardBody, Reading.Prefixed, IsDropped;
    if s == [] {
      NothingRead(depth);
    } else if s[0] == '\r' {
      ReturnTurn(s, depth);
      PrefixedValue(LiteralBody(s[1..], depth), ['\r'], 1);
      FirstDiffers(queue, StandardBody(s, depth).value.value, '\r', LiteralBody(s[1..], depth));
    } else if s[0] == '\\' && |s| > 1 && IsLossy(s[1]) {
      LossyTurn(s, depth);
      PrefixedValue(LiteralBody(s[2..], depth), if s[1] == 'r' then ['\n'] else [], 2);
      PrefixedValue(StandardBody(s[2..], depth), [StandardByte(s[1])], 2);
      if s[1] == 'r' {
        FirstDiffers(queue, StandardBody(s, depth).value.value, '\n', LiteralBody(s[2..], depth));
      } else {
        MoreDropped(queue, s[1]);
        NeverCatchesUp(s[2..], depth, queue + [StandardByte(s[1])]);
        assert queue + ([StandardByte(s[1])] + StandardBody(s[2..], depth).value.value)
          == queue + [StandardByte(s[1])] + StandardBody(s[2..], depth).value.value;
      }
    } else {
      AgreeingTurn(s, depth);
      if s[0] == '\\' {
        var e := EscapeAt(s[1..]);
        SamePieceBehind(s[1 + e.size..], depth, queue, e.produced, 1 + e.size);
      } else if !(s[0] == ')' && depth == 1) {
        SamePieceBehind(s[1..], Inside(s[0], depth), queue, [s[0]], 1);
      } else {
        QueueIsNotEmpty(queue);
      }
    }
  }

  lemma QueueIsNotEmpty(queue: Bytes)
    requires IsDropped(queue)
    ensures queue + [] != []
  {}

  lemma MoreDropped(queue: Bytes, c: ByteChar)
    requires IsDropped(queue) && (c == 'b' || c == 'f')
    ensures IsDropped(queue + [StandardByte(c)])
  {}

  /** The next byte the program yields is neither a backspace nor a form feed. */
  lemma FirstDiffers(queue: Bytes, rest: Bytes, c: ByteChar, r: Reading)
    requires IsDropped(queue) && r.value.Some? && c != BACKSPACE && c != FORM_FEED
    ensures queue + rest != [c] + r.value.value
  {
    assert (queue + rest)[0] == queue[0];
  }

  /** A piece that both readers yield moves through the queue. */
  lemma {:induction false} SamePieceBehind(s: Bytes, depth: nat, queue: Bytes, piece: Bytes, size: nat)
    requires depth > 0 && IsDropped(queue) && |piece| <= 1
    requires LiteralBody(s, depth).Prefixed(piece, size).value.Some?
    requires StandardBody(s, depth).Prefixed(piece, size).value.Some?
    ensures queue + StandardBody(s, depth).Prefixed(piece, size).value.value
      != LiteralBody(s, depth).Prefixed(piece, size).value.value
    decreases |s|, 1
  {
    hide LiteralBody, StandardBody;
    var read, standard := LiteralBody(s, depth).value.value, StandardBody(s, depth).value.value;
    if piece == [] {
      NeverCatchesUp(s, depth, queue);
      assert piece + standard == standard && piece + read == read;
    } else if piece[0] == queue[0] {
      var moved := queue[1..] + piece;
      NeverCatchesUp(s, depth, moved);
      assert (queue + (piece + standard))[1..] == moved + standard;
      assert (piece + read)[1..] == read;
    } else {
      assert (queue + (piece + standard))[0] == queue[0] && (piece + read)[0] == piece[0];
    }
  }

  /** The program reads a closed string as the standard does if and only if the string
      has none of the three escapes and no bare carriage return. */
  lemma {:induction false} StandardExactlyWhenFaithful(s: Bytes, depth: nat)
    requires depth > 0 && LiteralBody(s, depth).value.Some?
    ensures LiteralBody(s, depth).value == StandardBody(s, depth).value <==> Faithful(s, depth)
    decreases |s|, 0
  {
    hide EscapeAt, StandardEscape, LiteralBody, StandardBody, Reading.Prefixed;
    if s == [] {
      NothingRead(depth);
    } else if s[0] == '\r' {
      ReturnTurn(s, depth);
      PrefixedValue(LiteralBody(s[1..], depth), ['\r'], 1);
      PrefixedValue(StandardBody(s[EndOfLineSize(s)..], depth), ['\n'], EndOfLineSize(s));
      FirstByteDiffers('\r', LiteralBody(s[1..], depth), '\n', StandardBody(s[EndOfLineSize(s)..], depth));
    } else if s[0] == '\\' && |s| > 1 && IsLossy(s[1]) {
      LossyString(s, depth);
    } else {
      AgreeingTurn(s, depth);
      if s[0] == '\\' {
        var e := EscapeAt(s[1..]);
        SamePiece(s[1 + e.size..], depth, e.produced, 1 + e.size);
      } else if !(s[0] == ')' && depth == 1) {
        SamePiece(s[1..], Inside(s[0], depth), [s[0]], 1);
      }
    }
  }

  lemma SamePiece(s: Bytes, depth: nat, piece: Bytes, size: nat)
    requires depth > 0 && LiteralBody(s, depth).Prefixed(piece, size).value.Some?
    ensures LiteralBody(s, depth).value.Some?
    ensures LiteralBody(s, depth).Prefixed(piece, size).value == StandardBody(s, depth).Prefixed(piece, size).value
      <==> Faithful(s, depth)
    decreases |s|, 1
  {
    hide LiteralBody, StandardBody, Faithful;
    StandardExactlyWhenFaithful(s, depth);
    var read, standard := LiteralBody(s, depth).value, StandardBody(s, depth).value;
    if standard.Some? && piece + read.value == piece + standard.value {
      assert (piece + read.value)[|piece|..] == read.value && (piece + standard.value)[|piece|..] == standard.value;
    }
  }

  lemma FirstByteDiffers(c: ByteChar, r: Reading, d: ByteChar, q: Reading)
    requires c != d && r.value.Some?
    ensures Some([c] + r.value.value) != if q.value.Some? then Some([d] + q.value.value) else None
  {
    if q.value.Some? { assert ([c] + r.value.value)[0] == c && ([d] + q.value.value)[0] == d; }
  }

  /** At a lossy escape the two readings part for good. */
  lemma LossyString(s: Bytes, depth: nat)
    requires depth > 0 && |s| > 1 && s[0] == '\\' && IsLossy(s[1]) && LiteralBody(s, depth).value.Some?
    ensures LiteralBody(s, depth).value != StandardBody(s, depth).value
  {
    hide LiteralBody, StandardBody, Reading.Prefixed;
    LossyTurn(s, depth);
    var read, standard := LiteralBody(s[2..], depth), StandardBody(s[2..], depth);
    PrefixedValue(read, if s[1] == 'r' then ['\n'] else [], 2);
    PrefixedValue(standard, [StandardByte(s[1])], 2);
    if s[1] == 'r' {
      FirstByteDiffers('\n', read, '\r', standard);
    } else if standard.value.Some? {
      NeverCatchesUp(s[2..], depth, [StandardByte(s[1])]);
      assert [] + read.value.value == read.value.value;
    }
  }

  /** Table 1: the white-space characters. */
  lemma WhitespaceIsStandard(c: ByteChar)
    ensures IsWhitespace(c) <==> c as int in {0x00, 0x09, 0x0A, 0x0C, 0x0D, 0x20}
  {}
}
