/** ToUnicode maps (ISO 32000-1, section 9.10.3) and the decoding of shown strings. */
module PdfText {
  import opened Optional
  import opened Utf8
  import opened Utf16
  import opened PdfStrings

  type CodeMap = map<Bytes, Bytes>

  const MAXIMUM_ENTRIES: nat := 65536
  const MAXIMUM_CODE_BYTES: nat := 4

  /** The fallback code point of each byte (Windows-1252 or Mac Roman). */
  type SingleByteEncoding = s: seq<CodePoint> | |s| == 256 witness seq(256, _ => 0)

  function Converted(utf16: Bytes): Bytes { Encode(Scalars(WithoutMark(utf16))) }

  /** One more entry; an empty or long code, or a full map, leaves it alone. */
  function WithEntry(entries: CodeMap, code: Bytes, utf16: Bytes): CodeMap {
    if code == [] || |code| > MAXIMUM_CODE_BYTES || |entries| >= MAXIMUM_ENTRIES then entries
    else entries[code := Converted(utf16)]
  }

  // ---- Decoding -----------------------------------------------------------------

  /** Length of the longest code, of at most `limit` bytes, that starts the text; 0 if none. */
  function LongestCode(entries: CodeMap, bytes: Bytes, limit: nat): (n: nat)
    requires limit <= |bytes|
    ensures n <= limit
  {
    if limit == 0 || bytes[..limit] in entries then limit else LongestCode(entries, bytes, limit - 1)
  }

  lemma {:induction false} LongestCodeIsLongest(entries: CodeMap, bytes: Bytes, limit: nat)
    requires limit <= |bytes|
    ensures var n := LongestCode(entries, bytes, limit);
      && (n > 0 ==> bytes[..n] in entries)
      && forall k :: n < k <= limit ==> bytes[..k] !in entries
  {
    if limit != 0 && bytes[..limit] !in entries {
      LongestCodeIsLongest(entries, bytes, limit - 1);
    }
  }

  function SingleByteText(encoding: SingleByteEncoding, bytes: Bytes): Bytes {
    if bytes == [] then [] else
      EncodeScalar(encoding[bytes[0] as int]) + SingleByteText(encoding, bytes[1..])
  }

  /** Longest match first; a byte that starts no code goes through the fallback. */
  function Mapped(entries: CodeMap, encoding: SingleByteEncoding, bytes: Bytes): Bytes {
    if bytes == [] then [] else
      var n := LongestCode(entries, bytes, |bytes|);
      if n > 0 && bytes[..n] in entries then entries[bytes[..n]] + Mapped(entries, encoding, bytes[n..])
      else EncodeScalar(encoding[bytes[0] as int]) + Mapped(entries, encoding, bytes[1..])
  }

  function DecodedText(entries: CodeMap, encoding: SingleByteEncoding, bytes: Bytes): Bytes {
    if entries != map[] then Mapped(entries, encoding, bytes)
    else if HasByteOrderMark(bytes) then Converted(bytes)
    else SingleByteText(encoding, bytes)
  }

  class ToUnicodeMap {
    var entries: CodeMap
    var maximumCodeBytes: nat

    ghost predicate Valid()
      reads this
    {
      && (forall code :: code in entries ==> 0 < |code| <= maximumCodeBytes)
      && maximumCodeBytes <= MAXIMUM_CODE_BYTES && |entries| <= MAXIMUM_ENTRIES
    }

    constructor ()
      ensures Valid() && entries == map[]
    {
      entries := map[];
      maximumCodeBytes := 0;
    }

    method AddEntry(code: Bytes, utf16Text: Bytes)
      requires Valid()
      modifies this
      ensures Valid() && entries == WithEntry(old(entries), code, utf16Text)
    {
      hide Encode, Scalars;
      if code == [] || |code| > MAXIMUM_CODE_BYTES || |entries| >= MAXIMUM_ENTRIES {
        return;
      }
      maximumCodeBytes := if |code| > maximumCodeBytes then |code| else maximumCodeBytes;
      var text := BigEndianToUtf8(utf16Text);
      entries := entries[code := text];
    }

    /** The longest code at the offset, tried from the longest possible down. */
    method FindCode(bytes: Bytes, offset: nat) returns (size: nat)
      requires Valid() && offset < |bytes|
      ensures size == (var n := LongestCode(entries, bytes[offset..], |bytes| - offset); n)
      ensures size > 0 ==> offset + size <= |bytes| && bytes[offset..offset + size] in entries
    {
      var rest := bytes[offset..];
      size := if maximumCodeBytes < |rest| then maximumCodeBytes else |rest|;
      NoLongerCode(entries, rest, size, |rest|);
      while size > 0
        invariant size <= |rest| && LongestCode(entries, rest, |rest|) == LongestCode(entries, rest, size)
      {
        assert rest[..size] == bytes[offset..offset + size];
        if bytes[offset..offset + size] in entries {
          return;
        }
        size := size - 1;
      }
    }

    /** The loop over the string's bytes. */
    method MapBytes(bytes: Bytes, encoding: SingleByteEncoding) returns (output: Bytes)
      requires Valid()
      ensures output == Mapped(entries, encoding, bytes)
    {
      hide EncodeScalar, LongestCode, Mapped;
      output := [];
      var offset: nat := 0;
      assert bytes[0..] == bytes;
      while offset < |bytes|
        invariant offset <= |bytes|
        invariant Mapped(entries, encoding, bytes) == output + Mapped(entries, encoding, bytes[offset..])
      {
        var size := FindCode(bytes, offset);
        if size > 0 {
          var code := bytes[offset..offset + size];
          MappedCode(entries, encoding, bytes, offset, code, output);
          output := output + entries[code];
          offset := offset + size;
        } else {
          MappedByte(entries, encoding, bytes, offset, output);
          output := output + EncodeScalar(encoding[bytes[offset] as int]);
          offset := offset + 1;
        }
      }
      assert bytes[offset..] == [];
      NothingMapped(entries, encoding);
    }

    method DecodeBytes(bytes: Bytes, encoding: SingleByteEncoding) returns (output: Bytes)
      requires Valid()
      ensures output == DecodedText(entries, encoding, bytes)
    {
      hide Encode, Scalars, EncodeScalar, HasByteOrderMark, Mapped;
      if entries != map[] {
        output := MapBytes(bytes, encoding);
      } else if HasByteOrderMark(bytes) {
        output := BigEndianToUtf8(bytes);
      } else {
        output := SingleByteText(encoding, bytes);
      }
    }
  }

  lemma NothingMapped(entries: CodeMap, encoding: SingleByteEncoding)
    ensures Mapped(entries, encoding, []) == []
  {}

  /** Codes are never longer than the longest added. */
  lemma {:induction false} NoLongerCode(entries: CodeMap, bytes: Bytes, size: nat, limit: nat)
    requires size <= limit <= |bytes|
    requires size < limit ==> forall code :: code in entries ==> |code| <= size
    ensures LongestCode(entries, bytes, limit) == LongestCode(entries, bytes, size)
  {
    if size < limit {
      NoLongerCode(entries, bytes, size, limit - 1);
    }
  }

  lemma MappedCode(entries: CodeMap, encoding: SingleByteEncoding, bytes: Bytes, offset: nat, code: Bytes,
      output: Bytes)
    requires offset < |bytes| && 0 < |code| == LongestCode(entries, bytes[offset..], |bytes| - offset)
    requires offset + |code| <= |bytes| && code == bytes[offset..offset + |code|] && code in entries
    ensures output + Mapped(entries, encoding, bytes[offset..])
      == output + entries[code] + Mapped(entries, encoding, bytes[offset + |code|..])
  {
    hide LongestCode, Mapped;
    var rest := bytes[offset..];
    assert rest[..|code|] == code && rest[|code|..] == bytes[offset + |code|..];
    MappedUnfolds(entries, encoding, rest);
  }

  lemma MappedByte(entries: CodeMap, encoding: SingleByteEncoding, bytes: Bytes, offset: nat, output: Bytes)
    requires offset < |bytes| && LongestCode(entries, bytes[offset..], |bytes| - offset) == 0
    ensures output + Mapped(entries, encoding, bytes[offset..])
      == output + EncodeScalar(encoding[bytes[offset] as int]) + Mapped(entries, encoding, bytes[offset + 1..])
  {
    hide LongestCode, EncodeScalar, Mapped;
    var rest := bytes[offset..];
    assert rest[1..] == bytes[offset + 1..];
    MappedUnfolds(entries, encoding, rest);
  }

  lemma MappedUnfolds(entries: CodeMap, encoding: SingleByteEncoding, bytes: Bytes)
    requires bytes != []
    ensures var n := LongestCode(entries, bytes, |bytes|);
      Mapped(entries, encoding, bytes) ==
        if n > 0 && bytes[..n] in entries then entries[bytes[..n]] + Mapped(entries, encoding, bytes[n..])
        else EncodeScalar(encoding[bytes[0] as int]) + Mapped(entries, encoding, bytes[1..])
  {}

  // ---- When greedy decoding is exact ---------------------------------------------------

  function Joined(parts: seq<Bytes>): Bytes {
    if parts == [] then [] else parts[0] + Joined(parts[1..])
  }

  /** The pieces that greedy decoding cuts: the longest code, or a single byte. */
  function Split(entries: CodeMap, bytes: Bytes): seq<Bytes> {
    if bytes == [] then [] else
      var n := LongestCode(entries, bytes, |bytes|);
      var size := if n > 0 then n else 1;
      [bytes[..size]] + Split(entries, bytes[size..])
  }

  /** A piece that is no code is one byte, which goes through the fallback. */
  function PieceText(entries: CodeMap, encoding: SingleByteEncoding, piece: Bytes): Bytes {
    if piece in entries then entries[piece]
    else if piece != [] then EncodeScalar(encoding[piece[0] as int])
    else []
  }

  function PieceTexts(entries: CodeMap, encoding: SingleByteEncoding, pieces: seq<Bytes>): seq<Bytes> {
    seq(|pieces|, i requires 0 <= i < |pieces| => PieceText(entries, encoding, pieces[i]))
  }

  /** The pieces lose nothing. */
  lemma {:induction false} SplitKeepsBytes(entries: CodeMap, bytes: Bytes)
    ensures Joined(Split(entries, bytes)) == bytes
  {
    hide LongestCode;
    if bytes != [] {
      var n := LongestCode(entries, bytes, |bytes|);
      var size := if n > 0 then n else 1;
      SplitKeepsBytes(entries, bytes[size..]);
      assert Split(entries, bytes)[1..] == Split(entries, bytes[size..]);
      assert bytes[..size] + bytes[size..] == bytes;
    }
  }

  /** Decoding is cutting and looking the pieces up. */
  lemma {:induction false} MappedIsSplit(entries: CodeMap, encoding: SingleByteEncoding, bytes: Bytes)
    requires [] !in entries
    ensures Mapped(entries, encoding, bytes) == Joined(PieceTexts(entries, encoding, Split(entries, bytes)))
  {
    hide LongestCode, EncodeScalar, PieceText;
    if bytes != [] {
      var n := LongestCode(entries, bytes, |bytes|);
      var size := if n > 0 then n else 1;
      var piece, rest := bytes[..size], bytes[size..];
      MappedIsSplit(entries, encoding, rest);
      FirstPieceText(entries, encoding, bytes);
      var pieces := Split(entries, bytes);
      assert pieces[0] == piece && pieces[1..] == Split(entries, rest);
      assert PieceTexts(entries, encoding, pieces)[1..] == PieceTexts(entries, encoding, pieces[1..]);
    }
  }

  lemma FirstPieceText(entries: CodeMap, encoding: SingleByteEncoding, bytes: Bytes)
    requires bytes != [] && [] !in entries
    ensures var n := LongestCode(entries, bytes, |bytes|);
      var size := if n > 0 then n else 1;
      Mapped(entries, encoding, bytes)
        == PieceText(entries, encoding, bytes[..size]) + Mapped(entries, encoding, bytes[size..])
  {
    hide LongestCode, EncodeScalar, Mapped;
    LongestCodeIsLongest(entries, bytes, |bytes|);
    MappedUnfolds(entries, encoding, bytes);
  }

  ghost predicate AllCodes(codes: set<Bytes>, parts: seq<Bytes>) { forall i :: 0 <= i < |parts| ==> parts[i] in codes }

  /** No code is a prefix of a shorter code followed by further codes. */
  ghost predicate Unambiguous(codes: set<Bytes>) {
    forall code, longer, rest: seq<Bytes> ::
      code in codes && longer in codes && |code| < |longer| && AllCodes(codes, rest) ==>
        !(longer <= code + Joined(rest))
  }

  ghost predicate PrefixFree(codes: set<Bytes>) {
    forall code, other :: code in codes && other in codes && code <= other ==> code == other
  }

  lemma PrefixFreeIsUnambiguous(codes: set<Bytes>)
    requires PrefixFree(codes)
    ensures Unambiguous(codes)
  {
    hide Joined;
    forall code, longer, rest: seq<Bytes> |
      code in codes && longer in codes && |code| < |longer| && AllCodes(codes, rest)
      ensures !(longer <= code + Joined(rest))
    {
      if longer <= code + Joined(rest) { BothStart(code, longer, Joined(rest)); }
    }
  }

  lemma BothStart(code: Bytes, longer: Bytes, rest: Bytes)
    requires |code| <= |longer| && longer <= code + rest
    ensures code <= longer
  {}

  function Texts(entries: CodeMap, codes: seq<Bytes>): seq<Bytes>
    requires forall i :: 0 <= i < |codes| ==> codes[i] in entries
  {
    seq(|codes|, i requires 0 <= i < |codes| => entries[codes[i]])
  }

  /** Every sequence of codes is cut back into its codes. */
  ghost predicate ReadsAllCodes(entries: CodeMap) {
    forall codes: seq<Bytes> :: AllCodes(entries.Keys, codes) ==> Split(entries, Joined(codes)) == codes
  }

  /** In front of further codes, the longest match is the code that was written. */
  lemma FirstCodeIsFound(entries: CodeMap, code: Bytes, rest: seq<Bytes>)
    requires Unambiguous(entries.Keys) && [] !in entries && code in entries && AllCodes(entries.Keys, rest)
    ensures LongestCode(entries, code + Joined(rest), |code + Joined(rest)|) == |code| > 0
  {
    hide Joined, LongestCode, Unambiguous;
    var bytes := code + Joined(rest);
    var n := LongestCode(entries, bytes, |bytes|);
    LongestCodeIsLongest(entries, bytes, |bytes|);
    assert bytes[..|code|] == code;
    if n > |code| { NoLongerStart(entries.Keys, code, bytes[..n], rest); }
  }

  lemma NoLongerStart(codes: set<Bytes>, code: Bytes, longer: Bytes, rest: seq<Bytes>)
    requires Unambiguous(codes) && code in codes && longer in codes && |code| < |longer| && AllCodes(codes, rest)
    ensures !(longer <= code + Joined(rest))
  {}

  lemma {:induction false} CodesAreCutBack(entries: CodeMap, codes: seq<Bytes>)
    requires Unambiguous(entries.Keys) && [] !in entries && AllCodes(entries.Keys, codes)
    ensures Split(entries, Joined(codes)) == codes
  {
    hide LongestCode, Unambiguous;
    if codes != [] {
      var code, rest := codes[0], Joined(codes[1..]);
      var bytes := code + rest;
      FirstCodeIsFound(entries, code, codes[1..]);
      assert bytes[..|code|] == code && bytes[|code|..] == rest;
      CodesAreCutBack(entries, codes[1..]);
      assert codes == [code] + codes[1..];
    }
  }

  /** Two codes that collide are cut wrongly: the longer one is taken first. */
  lemma CollidingCodesAreMiscut(entries: CodeMap, code: Bytes, longer: Bytes, rest: seq<Bytes>)
    requires [] !in entries && code in entries && longer in entries && |code| < |longer| && AllCodes(entries.Keys, rest)
    requires longer <= code + Joined(rest)
    ensures AllCodes(entries.Keys, [code] + rest) && Split(entries, Joined([code] + rest)) != [code] + rest
  {
    hide LongestCode;
    var codes := [code] + rest;
    assert codes[1..] == rest;
    var bytes := Joined(codes);
    assert bytes == code + Joined(rest);
    var n := LongestCode(entries, bytes, |bytes|);
    LongestCodeIsLongest(entries, bytes, |bytes|);
    assert bytes[..|longer|] == longer;
    assert n >= |longer|;
    assert |Split(entries, bytes)[0]| == n;
    assert codes[0] == code;
  }

  /** The exact condition: greedy cutting gives every sequence of codes back if and
      only if no code is a prefix of a shorter one followed by further codes. */
  lemma GreedyIsExactWhenUnambiguous(entries: CodeMap)
    requires [] !in entries
    ensures ReadsAllCodes(entries) <==> Unambiguous(entries.Keys)
  {
    hide Split, Joined;
    if Unambiguous(entries.Keys) {
      forall codes: seq<Bytes> | AllCodes(entries.Keys, codes) ensures Split(entries, Joined(codes)) == codes {
        CodesAreCutBack(entries, codes);
      }
    } else {
      var code, longer, rest: seq<Bytes> :|
        code in entries.Keys && longer in entries.Keys && |code| < |longer| && AllCodes(entries.Keys, rest)
        && longer <= code + Joined(rest);
      CollidingCodesAreMiscut(entries, code, longer, rest);
    }
  }

  /** Greedy decoding inverts the writing of any sequence of unambiguous codes. */
  lemma CodesDecode(entries: CodeMap, encoding: SingleByteEncoding, codes: seq<Bytes>)
    requires Unambiguous(entries.Keys) && [] !in entries
    requires forall i :: 0 <= i < |codes| ==> codes[i] in entries
    ensures Mapped(entries, encoding, Joined(codes)) == Joined(Texts(entries, codes))
  {
    hide Unambiguous, Mapped, Split, Joined, EncodeScalar;
    CodesAreCutBack(entries, codes);
    MappedIsSplit(entries, encoding, Joined(codes));
    assert PieceTexts(entries, encoding, codes) == Texts(entries, codes);
  }

  /** Codes may start alike and still be read: A and AB with nothing that starts with B. */
  lemma StartingAlikeIsHarmless()
    ensures !PrefixFree({['A'], ['A', 'B']}) && Unambiguous({['A'], ['A', 'B']})
  {
    var a: Bytes, ab: Bytes := ['A'], ['A', 'B'];
    var codes := {a, ab};
    assert a in codes && ab in codes && a <= ab && a != ab;
    forall code, longer, rest: seq<Bytes> |
      code in codes && longer in codes && |code| < |longer| && AllCodes(codes, rest)
      ensures !(longer <= code + Joined(rest))
    {
      assert code == a && longer == ab;
      if rest != [] {
        assert rest[0] in codes;
        assert (a + Joined(rest))[1] == rest[0][0] == 'A';
      }
    }
  }

  /** A, B and AB: A followed by B is taken for AB. */
  lemma OverlappingCodesMisread(encoding: SingleByteEncoding)
    ensures !Unambiguous({['A'], ['B'], ['A', 'B']})
    ensures var entries: CodeMap := map[['A'] := ['1'], ['B'] := ['2'], ['A', 'B'] := ['3']];
      && Mapped(entries, encoding, Joined([['A'], ['B']])) == ['3']
      && Joined(Texts(entries, [['A'], ['B']])) == ['1', '2']
  {
    hide Unambiguous;
    OverlapIsAmbiguous();
    var a: Bytes, b: Bytes, ab: Bytes := ['A'], ['B'], ['A', 'B'];
    var entries: CodeMap := map[a := ['1'], b := ['2'], ab := ['3']];
    assert Joined([b]) == b && Joined([a, b]) == ab by { assert [a, b][1..] == [b]; }
    assert ab[..2] == ab && LongestCode(entries, ab, 2) == 2;
    assert Texts(entries, [a, b])[1..] == [entries[b]];
    assert Joined([entries[b]]) == ['2'];
  }

  lemma OverlapIsAmbiguous()
    ensures !Unambiguous({['A'], ['B'], ['A', 'B']})
  {
    var a: Bytes, b: Bytes, ab: Bytes := ['A'], ['B'], ['A', 'B'];
    var codes := {a, b, ab};
    assert a in codes && ab in codes && AllCodes(codes, [b]);
    assert Joined([b]) == b && ab <= a + Joined([b]);
  }

  // ---- From the font's map to the text shown ------------------------------------------------

  /** A code of a font and the text it stands for. */
  datatype Glyph = Glyph(code: Bytes, scalars: seq<CodePoint>)

  ghost predicate IsText(scalars: seq<CodePoint>) {
    (forall i :: 0 <= i < |scalars| ==> IsScalar(scalars[i])) && (scalars == [] || scalars[0] != MARK)
  }

  ghost predicate IsFont(font: seq<Glyph>) {
    && |font| <= MAXIMUM_ENTRIES
    && (forall i :: 0 <= i < |font| ==> 0 < |font[i].code| <= MAXIMUM_CODE_BYTES && IsText(font[i].scalars))
    && forall i, j :: 0 <= i < j < |font| ==> font[i].code != font[j].code
  }

  ghost function CodeSet(font: seq<Glyph>): set<Bytes> { set i | 0 <= i < |font| :: font[i].code }

  /** Every glyph of the font added in turn, its text as big-endian UTF-16. */
  function FontMap(font: seq<Glyph>): CodeMap {
    if font == [] then map[] else
      var last := font[|font| - 1];
      WithEntry(FontMap(font[..|font| - 1]), last.code, EncodeBigEndian(last.scalars))
  }

  lemma TextConverts(scalars: seq<CodePoint>)
    requires IsText(scalars)
    ensures Converted(EncodeBigEndian(scalars)) == Encode(scalars)
  {
    hide Encode, EncodeBigEndian, Scalars, IsScalar;
    MarkIsFirstScalar(scalars);
    ScalarsReadBack(scalars);
  }

  /** The map holds exactly the font's codes, each with its text in UTF-8. */
  ghost predicate IsCodeOf(font: seq<Glyph>, code: Bytes) { exists i :: 0 <= i < |font| && font[i].code == code }

  ghost predicate Holds(entries: CodeMap, font: seq<Glyph>) {
    && |entries| == |font|
    && (forall code :: code in entries ==> IsCodeOf(font, code))
    && forall i :: 0 <= i < |font| ==> font[i].code in entries && entries[font[i].code] == Encode(font[i].scalars)
  }

  lemma OneMoreGlyph(entries: CodeMap, font: seq<Glyph>, glyph: Glyph)
    requires Holds(entries, font) && forall i :: 0 <= i < |font| ==> font[i].code != glyph.code
    ensures Holds(entries[glyph.code := Encode(glyph.scalars)], font + [glyph])
  {
    hide Encode;
    var whole := font + [glyph];
    var more := entries[glyph.code := Encode(glyph.scalars)];
    assert glyph.code !in entries;
    assert |more| == |entries| + 1;
    StillCodes(font, glyph);
    forall code | code in more ensures IsCodeOf(whole, code) {
      if code != glyph.code { assert IsCodeOf(font, code); }
    }
    hide IsCodeOf;
    forall i | 0 <= i < |whole| ensures whole[i].code in more && more[whole[i].code] == Encode(whole[i].scalars) {
      if i < |font| { assert whole[i] == font[i]; } else { assert whole[i] == glyph; }
    }
  }

  lemma StillCodes(font: seq<Glyph>, glyph: Glyph)
    ensures forall code :: IsCodeOf(font, code) ==> IsCodeOf(font + [glyph], code)
    ensures IsCodeOf(font + [glyph], glyph.code)
  {
    assert (font + [glyph])[|font|] == glyph;
    forall code | IsCodeOf(font, code) ensures IsCodeOf(font + [glyph], code) {
      var i :| 0 <= i < |font| && font[i].code == code;
      assert (font + [glyph])[i].code == code;
    }
  }

  lemma EmptyFont()
    ensures Holds(map[], [])
  {}

  lemma MapSize(entries: CodeMap, font: seq<Glyph>)
    requires Holds(entries, font)
    ensures |entries| == |font|
  {}

  lemma LastGlyph(font: seq<Glyph>)
    requires IsFont(font) && font != []
    ensures var before, last := font[..|font| - 1], font[|font| - 1];
      && IsFont(before) && |before| < MAXIMUM_ENTRIES
      && 0 < |last.code| <= MAXIMUM_CODE_BYTES && IsText(last.scalars)
      && forall i :: 0 <= i < |before| ==> before[i].code != last.code
  {
    hide IsText;
  }

  lemma {:induction false} FontMapIsExact(font: seq<Glyph>)
    requires IsFont(font)
    ensures Holds(FontMap(font), font)
  {
    hide Converted, Encode, EncodeBigEndian, IsText, IsFont, Holds;
    if font == [] {
      EmptyFont();
    } else {
      var before, last := font[..|font| - 1], font[|font| - 1];
      assert font == before + [last];
      LastGlyph(font);
      FontMapIsExact(before);
      MapSize(FontMap(before), before);
      TextConverts(last.scalars);
      OneMoreGlyph(FontMap(before), before, last);
    }
  }

  function CodesOf(shown: seq<Glyph>): seq<Bytes> {
    seq(|shown|, k requires 0 <= k < |shown| => shown[k].code)
  }

  function ShownScalars(shown: seq<Glyph>): seq<CodePoint> {
    if shown == [] then [] else shown[0].scalars + ShownScalars(shown[1..])
  }

  predicate Shows(font: seq<Glyph>, shown: seq<Glyph>) { forall k :: 0 <= k < |shown| ==> shown[k] in font }

  lemma {:induction false} EncodeConcatenates(a: seq<CodePoint>, b: seq<CodePoint>)
    ensures Encode(a + b) == Encode(a) + Encode(b)
  {
    hide EncodeScalar;
    if a == [] {
      assert a + b == b;
    } else {
      EncodeConcatenates(a[1..], b);
      assert (a + b)[1..] == a[1..] + b && (a + b)[0] == a[0];
      var first := EncodeScalar(a[0]);
      assert Encode(a + b) == first + Encode((a + b)[1..]);
      assert first + (Encode(a[1..]) + Encode(b)) == first + Encode(a[1..]) + Encode(b);
    }
  }

  lemma CodesAreInMap(entries: CodeMap, font: seq<Glyph>, shown: seq<Glyph>)
    requires Holds(entries, font) && Shows(font, shown)
    ensures forall k :: 0 <= k < |shown| ==>
      CodesOf(shown)[k] in entries && entries[CodesOf(shown)[k]] == Encode(shown[k].scalars)
  {
    hide Encode;
    forall k | 0 <= k < |shown|
      ensures CodesOf(shown)[k] in entries && entries[CodesOf(shown)[k]] == Encode(shown[k].scalars)
    {
      assert shown[k] in font;
      var i :| 0 <= i < |font| && font[i] == shown[k];
    }
  }

  lemma {:induction false} TextsConcatenate(entries: CodeMap, font: seq<Glyph>, shown: seq<Glyph>)
    requires Holds(entries, font) && Shows(font, shown)
    ensures forall k :: 0 <= k < |shown| ==> CodesOf(shown)[k] in entries
    ensures Joined(Texts(entries, CodesOf(shown))) == Encode(ShownScalars(shown))
  {
    hide Encode, Holds;
    CodesAreInMap(entries, font, shown);
    var codes := CodesOf(shown);
    if shown == [] {
      NothingShown();
    } else {
      TextsConcatenate(entries, font, shown[1..]);
      assert codes[1..] == CodesOf(shown[1..]);
      assert Texts(entries, codes)[1..] == Texts(entries, codes[1..]);
      assert Texts(entries, codes)[0] == Encode(shown[0].scalars);
      EncodeConcatenates(shown[0].scalars, ShownScalars(shown[1..]));
    }
  }

  lemma {:induction false} ShownAreScalars(font: seq<Glyph>, shown: seq<Glyph>)
    requires IsFont(font) && Shows(font, shown)
    ensures forall k :: 0 <= k < |ShownScalars(shown)| ==> IsScalar(ShownScalars(shown)[k])
  {
    hide IsScalar;
    if shown != [] {
      ShownAreScalars(font, shown[1..]);
      assert shown[0] in font;
      var i :| 0 <= i < |font| && font[i] == shown[0];
      assert IsText(font[i].scalars);
    }
  }

  lemma NothingShown()
    ensures Encode([]) == []
  {}

  lemma FontMapHasItsCodes(font: seq<Glyph>)
    requires IsFont(font)
    ensures FontMap(font).Keys == CodeSet(font) && [] !in FontMap(font)
  {
    hide FontMap, IsText, Encode;
    FontMapIsExact(font);
  }

  /** Glyphs shown through an unambiguous font's map give their own text, as valid UTF-8. */
  lemma ShownTextDecodes(font: seq<Glyph>, encoding: SingleByteEncoding, shown: seq<Glyph>)
    requires IsFont(font) && Unambiguous(CodeSet(font)) && Shows(font, shown)
    ensures DecodedText(FontMap(font), encoding, Joined(CodesOf(shown))) == Encode(ShownScalars(shown))
    ensures Decode(Encode(ShownScalars(shown))) == Some(ShownScalars(shown))
  {
    hide FontMap, Encode, Decode, IsFont, Unambiguous, CodeSet, Mapped;
    FontMapIsExact(font);
    TextsConcatenate(FontMap(font), font, shown);
    ShownAreScalars(font, shown);
    EncodeReadsBack(ShownScalars(shown));
    FontMapHasItsCodes(font);
    CodesDecode(FontMap(font), encoding, CodesOf(shown));
    if FontMap(font) == map[] {
      assert CodesOf(shown) == [];
      NothingShown();
    }
  }

  /** A written string, its closing character and what follows. */
  function ClosedBy(written: Bytes, close: ByteChar, s: Bytes): Bytes { written + ([close] + s) }

  /** A literal string of a content stream, after its opening parenthesis, decoded. */
  function DecodedLiteral(entries: CodeMap, encoding: SingleByteEncoding, s: Bytes): Option<Bytes> {
    match LiteralBody(s, 1).value
    case None => None
    case Some(bytes) => Some(DecodedText(entries, encoding, bytes))
  }

  /** A hexadecimal string, after its opening bracket, decoded. */
  function DecodedHex(entries: CodeMap, encoding: SingleByteEncoding, s: Bytes): Option<Bytes> {
    match HexBody(s).nibbles
    case None => None
    case Some(nibbles) => Some(DecodedText(entries, encoding, Paired(nibbles)))
  }

  /** The same through a content stream: however the codes are written as a literal
      string, the parser and the map give back the text. */
  lemma WrittenLiteralDecodes(font: seq<Glyph>, encoding: SingleByteEncoding, shown: seq<Glyph>, p: Pieces, s: Bytes)
    requires Writable(p) && Meaning(p) == Joined(CodesOf(shown))
    requires IsFont(font) && Unambiguous(CodeSet(font)) && Shows(font, shown)
    ensures DecodedLiteral(FontMap(font), encoding, ClosedBy(Print(p), ')', s)) == Some(Encode(ShownScalars(shown)))
  {
    hide LiteralBody, DecodedText, FontMap, Encode, IsFont, Unambiguous, CodeSet, CodesOf, ShownScalars, Joined,
         Writable, Meaning, Print, Shows;
    ShownTextDecodes(font, encoding, shown);
    LiteralReadsBack(p, s);
  }

  /** And however they are written in hexadecimal digits. */
  lemma WrittenHexDecodes(font: seq<Glyph>, encoding: SingleByteEncoding, shown: seq<Glyph>, digits: Bytes, s: Bytes)
    requires Nibbles(digits) == Some(NibblesOf(Joined(CodesOf(shown))))
    requires IsFont(font) && Unambiguous(CodeSet(font)) && Shows(font, shown)
    ensures DecodedHex(FontMap(font), encoding, ClosedBy(digits, '>', s)) == Some(Encode(ShownScalars(shown)))
  {
    hide HexBody, DecodedText, FontMap, Encode, IsFont, Unambiguous, CodeSet, CodesOf, ShownScalars, Joined, Nibbles,
         NibblesOf, Paired, Shows;
    ShownTextDecodes(font, encoding, shown);
    HexReadsBack(digits, Joined(CodesOf(shown)), s);
  }

  /** Without a map, text in big-endian UTF-16 behind its byte order mark survives. */
  lemma MarkedTextSurvives(encoding: SingleByteEncoding, scalars: seq<CodePoint>)
    requires forall i :: 0 <= i < |scalars| ==> IsScalar(scalars[i])
    ensures DecodedText(map[], encoding, UnitBytes(MARK) + EncodeBigEndian(scalars)) == Encode(scalars)
  {
    hide Encode, Scalars, EncodeBigEndian;
    var written := EncodeBigEndian(scalars);
    ScalarsReadBack(scalars);
    assert HasByteOrderMark(UnitBytes(MARK) + written) && (UnitBytes(MARK) + written)[2..] == written;
  }

  /** And any other string is read byte by byte through the font's table. */
  lemma {:induction false} UnmarkedBytesAreLookedUp(encoding: SingleByteEncoding, bytes: Bytes)
    requires !HasByteOrderMark(bytes)
    ensures DecodedText(map[], encoding, bytes) == Encode(LookedUp(encoding, bytes))
  {
    SingleBytesAreLookedUp(encoding, bytes);
  }

  function LookedUp(encoding: SingleByteEncoding, bytes: Bytes): seq<CodePoint> {
    seq(|bytes|, i requires 0 <= i < |bytes| => encoding[bytes[i] as int])
  }

  lemma {:induction false} SingleBytesAreLookedUp(encoding: SingleByteEncoding, bytes: Bytes)
    ensures SingleByteText(encoding, bytes) == Encode(LookedUp(encoding, bytes))
  {
    hide EncodeScalar;
    if bytes != [] {
      SingleBytesAreLookedUp(encoding, bytes[1..]);
      assert LookedUp(encoding, bytes)[1..] == LookedUp(encoding, bytes[1..]);
    }
  }
}
