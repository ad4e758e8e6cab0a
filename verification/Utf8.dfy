/**
 UTF-8 (RFC 3629, section 3) as the document extractors append it, and an
 independent strict decoder.  A byte is a char below 256.
 */
module Utf8 {
  import opened Optional

  /** What fits the 21 bits that the code passes around. */
  type CodePoint = n: nat | n <= 0x10FFFF

  /** A Unicode scalar value: any code point but a surrogate. */
  predicate IsScalar(n: nat) { n <= 0x10FFFF && !(0xD800 <= n <= 0xDFFF) }

  type ByteChar = c: char | c as int < 256 witness '\0'

  /** A sequence of bytes. */
  type Bytes = seq<ByteChar>

  function Byte(n: nat): ByteChar
    requires n < 256
  {
    n as char
  }

  /** appendUtf8: one to four bytes. */
  function EncodeScalar(n: CodePoint): Bytes {
    if n <= 0x7F then [Byte(n)]
    else if n <= 0x7FF then [Byte(0xC0 + n / 64), Byte(0x80 + n % 64)]
    else if n <= 0xFFFF then [Byte(0xE0 + n / 4096), Byte(0x80 + n / 64 % 64), Byte(0x80 + n % 64)]
    else [Byte(0xF0 + n / 0x40000), Byte(0x80 + n / 4096 % 64), Byte(0x80 + n / 64 % 64), Byte(0x80 + n % 64)]
  }

  function Encode(scalars: seq<CodePoint>): Bytes {
    if scalars == [] then "" else EncodeScalar(scalars[0]) + Encode(scalars[1..])
  }

  // ---- The reference decoder -----------------------------------------------------

  datatype First = First(scalar: nat, size: nat)

  predicate IsTail(c: char) { 0x80 <= c as int < 0xC0 }

  function Payload(c: char): nat { c as int % 64 }

  /** The scalar at the front: no surrogate, and no longer form than needed. */
  function DecodeFirst(s: string): Option<First>
    requires s != ""
  {
    var lead := s[0] as int;
    if lead < 0x80 then Some(First(lead, 1))
    else if 0xC2 <= lead < 0xE0 && |s| >= 2 && IsTail(s[1]) then
      Some(First((lead - 0xC0) * 64 + Payload(s[1]), 2))
    else if 0xE0 <= lead < 0xF0 && |s| >= 3 && IsTail(s[1]) && IsTail(s[2]) then
      Checked(First((lead - 0xE0) * 4096 + Payload(s[1]) * 64 + Payload(s[2]), 3), 0x800)
    else if 0xF0 <= lead < 0xF5 && |s| >= 4 && IsTail(s[1]) && IsTail(s[2]) && IsTail(s[3]) then
      Checked(First((lead - 0xF0) * 0x40000 + Payload(s[1]) * 4096 + Payload(s[2]) * 64 + Payload(s[3]), 4), 0x10000)
    else None
  }

  function Checked(first: First, least: nat): Option<First> {
    if least <= first.scalar && IsScalar(first.scalar) then Some(first) else None
  }

  function Decode(s: string): Option<seq<nat>> {
    if s == "" then Some([]) else
      match DecodeFirst(s)
      case None => None
      case Some(first) =>
        if 0 < first.size <= |s| && Decode(s[first.size..]).Some? then
          Some([first.scalar] + Decode(s[first.size..]).value)
        else None
  }

  lemma TailReadsBack(k: nat)
    requires k < 64
    ensures IsTail(Byte(0x80 + k)) && Payload(Byte(0x80 + k)) == k
  {}

  lemma SixBitGroups(n: CodePoint)
    ensures n / 64 * 64 + n % 64 == n && n / 4096 * 64 + n / 64 % 64 == n / 64
    ensures n / 0x40000 * 64 + n / 4096 % 64 == n / 4096
  {}

  /** What is appended for a scalar decodes to it, whatever follows; what is
      appended for a surrogate does not decode. */
  lemma FirstReadsBack(n: CodePoint, rest: string)
    ensures EncodeScalar(n) != ""
    ensures DecodeFirst(EncodeScalar(n) + rest) == if IsScalar(n) then Some(First(n, |EncodeScalar(n)|)) else None
  {
    hide IsTail, Payload;
    TailReadsBack(n % 64);
    TailReadsBack(n / 64 % 64);
    TailReadsBack(n / 4096 % 64);
    SixBitGroups(n);
    SameStart(EncodeScalar(n), rest);
  }

  lemma SameStart(s: string, rest: string)
    ensures forall i :: 0 <= i < |s| ==> (s + rest)[i] == s[i]
  {}

  lemma {:induction false} EncodeReadsBack(scalars: seq<CodePoint>)
    requires forall i :: 0 <= i < |scalars| ==> IsScalar(scalars[i])
    ensures Decode(Encode(scalars)) == Some(scalars)
  {
    hide IsScalar, EncodeScalar, DecodeFirst;
    if scalars != [] {
      var first, rest := EncodeScalar(scalars[0]), Encode(scalars[1..]);
      FirstReadsBack(scalars[0], rest);
      EncodeReadsBack(scalars[1..]);
      assert (first + rest)[|first|..] == rest;
      assert [scalars[0]] + scalars[1..] == scalars;
    }
  }

  /** The decoder accepts an encoding only of scalars. */
  lemma {:induction false} SurrogatesDoNotDecode(scalars: seq<CodePoint>)
    ensures Decode(Encode(scalars)).Some? <==> forall i :: 0 <= i < |scalars| ==> IsScalar(scalars[i])
  {
    hide IsScalar, EncodeScalar, DecodeFirst;
    if scalars != [] {
      var first, rest := EncodeScalar(scalars[0]), Encode(scalars[1..]);
      FirstReadsBack(scalars[0], rest);
      SurrogatesDoNotDecode(scalars[1..]);
      assert (first + rest)[|first|..] == rest;
      assert forall i :: 0 <= i < |scalars[1..]| ==> scalars[1..][i] == scalars[i + 1];
    }
  }

  /** The examples of RFC 3629, section 7, and a scalar of four bytes. */
  lemma StandardExamples()
    ensures EncodeScalar(0x2262) == [Byte(0xE2), Byte(0x89), Byte(0xA2)]
    ensures EncodeScalar(0x391) == [Byte(0xCE), Byte(0x91)] && EncodeScalar(0x2E) == ['.']
    ensures EncodeScalar(0xD55C) == [Byte(0xED), Byte(0x95), Byte(0x9C)]
    ensures EncodeScalar(0x65E5) == [Byte(0xE6), Byte(0x97), Byte(0xA5)]
    ensures EncodeScalar(0x233B4) == [Byte(0xF0), Byte(0xA3), Byte(0x8E), Byte(0xB4)]
  {}
}
