/** Big-endian UTF-16 (RFC 2781, section 2.2) to UTF-8, as PDF text is converted. */
module Utf16 {
  import opened Optional
  import opened Utf8

  const REPLACEMENT := 0xFFFD

  predicate IsHigh(unit: nat) { 0xD800 <= unit <= 0xDBFF }

  predicate IsLow(unit: nat) { 0xDC00 <= unit <= 0xDFFF }

  /** The code unit in the first two bytes. */
  function Unit(bytes: Bytes): nat
    requires |bytes| >= 2
  {
    bytes[0] as int * 256 + bytes[1] as int
  }

  function UnitBytes(unit: nat): Bytes
    requires unit <= 0xFFFF
  {
    [Byte(unit / 256), Byte(unit % 256)]
  }

  /** One scalar and the bytes it takes; a broken pair or odd byte is replaced. */
  function ScalarAtFront(bytes: Bytes): (first: First)
    requires bytes != []
    ensures 0 < first.size <= |bytes| && first.scalar <= 0x10FFFF
  {
    if |bytes| < 2 then First(REPLACEMENT, |bytes|)
    else if !IsHigh(Unit(bytes)) then First(Unit(bytes), 2)
    else if |bytes| < 4 then First(REPLACEMENT, |bytes|)
    else if !IsLow(Unit(bytes[2..])) then First(REPLACEMENT, 4)
    else First(0x10000 + (Unit(bytes) - 0xD800) * 0x400 + (Unit(bytes[2..]) - 0xDC00), 4)
  }

  function Scalars(bytes: Bytes): seq<CodePoint> {
    if bytes == [] then [] else
      [ScalarAtFront(bytes).scalar] + Scalars(bytes[ScalarAtFront(bytes).size..])
  }

  predicate HasByteOrderMark(bytes: Bytes) { |bytes| >= 2 && bytes[0] as int == 0xFE && bytes[1] as int == 0xFF }

  function WithoutMark(bytes: Bytes): Bytes { if HasByteOrderMark(bytes) then bytes[2..] else bytes }

  /** Reads one scalar at an offset and moves the offset past it. */
  method ReadScalar(bytes: Bytes, offset: nat) returns (scalar: CodePoint, next: nat)
    requires offset < |bytes|
    ensures offset < next <= |bytes| && ScalarAtFront(bytes[offset..]) == First(scalar, next - offset)
  {
    if offset + 1 >= |bytes| {
      return REPLACEMENT, |bytes|;
    }
    var high := bytes[offset] as int * 256 + bytes[offset + 1] as int;
    if !IsHigh(high) {
      return high, offset + 2;
    }
    if offset + 3 >= |bytes| {
      return REPLACEMENT, |bytes|;
    }
    var low := bytes[offset + 2] as int * 256 + bytes[offset + 3] as int;
    next := offset + 4;
    if !IsLow(low) {
      return REPLACEMENT, next;
    }
    scalar := 0x10000 + (high - 0xD800) % 0x400 * 0x400 + (low - 0xDC00) % 0x400;
  }

  method BigEndianToUtf8(bytes: Bytes) returns (output: Bytes)
    ensures output == Encode(Scalars(WithoutMark(bytes)))
  {
    hide EncodeScalar, ScalarAtFront, Encode;
    output := [];
    NothingEncoded();
    var offset := if HasByteOrderMark(bytes) then 2 else 0;
    ghost var done: seq<CodePoint> := [];
    assert bytes[0..] == bytes;
    while offset < |bytes|
      invariant offset <= |bytes| && output == Encode(done)
      invariant Scalars(WithoutMark(bytes)) == done + Scalars(bytes[offset..])
    {
      var scalar, next := ReadScalar(bytes, offset);
      assert bytes[offset..][next - offset..] == bytes[next..];
      assert done + [scalar] + Scalars(bytes[next..]) == done + Scalars(bytes[offset..]);
      EncodeOneMore(done, scalar);
      output := output + EncodeScalar(scalar);
      done := done + [scalar];
      offset := next;
    }
    assert bytes[offset..] == [] && done + [] == done;
  }

  lemma NothingEncoded()
    ensures Encode([]) == []
  {}

  lemma {:induction false} EncodeOneMore(scalars: seq<CodePoint>, last: CodePoint)
    ensures Encode(scalars + [last]) == Encode(scalars) + EncodeScalar(last)
  {
    hide EncodeScalar;
    if scalars != [] {
      EncodeOneMore(scalars[1..], last);
      assert (scalars + [last])[1..] == scalars[1..] + [last];
    }
  }

  // ---- Encoding, and what conversion keeps ---------------------------------------------

  function EncodeUnits(n: CodePoint): Bytes {
    if n <= 0xFFFF then UnitBytes(n)
    else UnitBytes(0xD800 + (n - 0x10000) / 0x400) + UnitBytes(0xDC00 + n % 0x400)
  }

  function EncodeBigEndian(scalars: seq<CodePoint>): Bytes {
    if scalars == [] then [] else EncodeUnits(scalars[0]) + EncodeBigEndian(scalars[1..])
  }

  lemma UnitReadsBack(unit: nat, rest: Bytes)
    requires unit <= 0xFFFF
    ensures |UnitBytes(unit)| == 2 && Unit(UnitBytes(unit) + rest) == unit && (UnitBytes(unit) + rest)[2..] == rest
  {}

  lemma FrontReadsBack(n: CodePoint, rest: Bytes)
    requires IsScalar(n)
    ensures EncodeUnits(n) != [] && ScalarAtFront(EncodeUnits(n) + rest) == First(n, |EncodeUnits(n)|)
  {
    hide Unit, UnitBytes;
    if n <= 0xFFFF {
      UnitReadsBack(n, rest);
    } else {
      var high, low := UnitBytes(0xD800 + (n - 0x10000) / 0x400), UnitBytes(0xDC00 + n % 0x400);
      UnitReadsBack(0xD800 + (n - 0x10000) / 0x400, low + rest);
      UnitReadsBack(0xDC00 + n % 0x400, rest);
      assert high + low + rest == high + (low + rest);
    }
  }

  lemma {:induction false} ScalarsReadBack(scalars: seq<CodePoint>)
    requires forall i :: 0 <= i < |scalars| ==> IsScalar(scalars[i])
    ensures Scalars(EncodeBigEndian(scalars)) == scalars
  {
    hide IsScalar, EncodeUnits, ScalarAtFront;
    if scalars != [] {
      var front, rest := EncodeUnits(scalars[0]), EncodeBigEndian(scalars[1..]);
      FrontReadsBack(scalars[0], rest);
      ScalarsReadBack(scalars[1..]);
      assert (front + rest)[|front|..] == rest;
      assert [scalars[0]] + scalars[1..] == scalars;
    }
  }

  const MARK := 0xFEFF

  lemma MarkIsFirstScalar(scalars: seq<CodePoint>)
    requires forall i :: 0 <= i < |scalars| ==> IsScalar(scalars[i])
    ensures HasByteOrderMark(EncodeBigEndian(scalars)) <==> scalars != [] && scalars[0] == MARK
    ensures WithoutMark(EncodeBigEndian(scalars))
      == EncodeBigEndian(if scalars != [] && scalars[0] == MARK then scalars[1..] else scalars)
  {
    if scalars != [] {
      var rest := EncodeBigEndian(scalars[1..]);
      if scalars[0] <= 0xFFFF {
        UnitReadsBack(scalars[0], rest);
      } else {
        assert EncodeUnits(scalars[0])[0] as int < 0xE0;
      }
    }
  }

  /** Converting text and decoding the result gives the text back, except that a
      leading U+FEFF is taken for a byte order mark. */
  lemma TextSurvives(scalars: seq<CodePoint>)
    requires forall i :: 0 <= i < |scalars| ==> IsScalar(scalars[i])
    ensures var converted := Decode(Encode(Scalars(WithoutMark(EncodeBigEndian(scalars)))));
      && converted == Some(if scalars != [] && scalars[0] == MARK then scalars[1..] else scalars)
      && (converted == Some(scalars) <==> scalars == [] || scalars[0] != MARK)
  {
    hide IsScalar, Encode, EncodeBigEndian, Scalars;
    MarkIsFirstScalar(scalars);
    var kept := if scalars != [] && scalars[0] == MARK then scalars[1..] else scalars;
    ScalarsReadBack(kept);
    EncodeReadsBack(kept);
  }

  /** On any bytes at all: no high surrogate comes out, and the output is valid
      UTF-8 exactly when no unpaired low surrogate is met. */
  lemma OutputIsUtf8(bytes: Bytes)
    ensures forall i :: 0 <= i < |Scalars(bytes)| ==> !IsHigh(Scalars(bytes)[i])
    ensures Decode(Encode(Scalars(bytes))).Some? <==>
      forall i :: 0 <= i < |Scalars(bytes)| ==> !IsLow(Scalars(bytes)[i])
  {
    hide Encode, Decode;
    NeverHigh(bytes);
    SurrogatesDoNotDecode(Scalars(bytes));
  }

  lemma {:induction false} NeverHigh(bytes: Bytes)
    ensures forall i :: 0 <= i < |Scalars(bytes)| ==> !IsHigh(Scalars(bytes)[i])
  {
    if bytes != [] {
      NeverHigh(bytes[ScalarAtFront(bytes).size..]);
    }
  }

  /** The example of RFC 2781, section 5: a scalar beyond 16 bits in big-endian order. */
  lemma StandardExample()
    ensures ScalarAtFront([Byte(0xD8), Byte(0x08), Byte(0xDF), Byte(0x45)]) == First(0x12345, 4)
    ensures ScalarAtFront([Byte(0x00), Byte(0x3D)]) == First('=' as int, 2)
  {
    var pair := [Byte(0xD8), Byte(0x08), Byte(0xDF), Byte(0x45)];
    assert pair[2..] == [Byte(0xDF), Byte(0x45)];
  }

  /** A high surrogate without its low one takes the next code unit with it, and what is
      left of a unit at the end is one more replacement. */
  lemma BrokenPairIsReplaced(high: nat, unit: nat, rest: Bytes)
    requires IsHigh(high) && unit <= 0xFFFF && !IsLow(unit)
    ensures Scalars(UnitBytes(high) + UnitBytes(unit) + rest) == [0xFFFD] + Scalars(rest)
  {
    var bytes := UnitBytes(high) + UnitBytes(unit) + rest;
    assert bytes[..4] == UnitBytes(high) + UnitBytes(unit) && bytes[4..] == rest;
    assert bytes[2..][0] == UnitBytes(unit)[0] && bytes[2..][1] == UnitBytes(unit)[1];
  }

  lemma BrokenEndIsReplaced(high: nat, byte: ByteChar)
    requires IsHigh(high)
    ensures Scalars([byte]) == [0xFFFD]
    ensures Scalars(UnitBytes(high)) == [0xFFFD] && Scalars(UnitBytes(high) + [byte]) == [0xFFFD]
  {
    assert [byte][1..] == [] && UnitBytes(high)[2..] == [];
    var bytes := UnitBytes(high) + [byte];
    assert bytes[3..] == [] && bytes[0] == UnitBytes(high)[0] && bytes[1] == UnitBytes(high)[1];
  }
}
