/**
 The streaming hasher behind content hashes: an eight-word state and a 64-byte
 buffer, updated in place, refining Sha256Standard.Digest for every way of
 splitting the input.
 */
module ContentHashing {
  import opened Optional
  import opened Sha256Standard

  // ---- What the buffer and the state stand for ---------------------------------

  /** `buffer` holds what follows the first `n` blocks of `bytes`. */
  ghost predicate Buffered(buffer: seq<Byte>, size: nat, bytes: seq<Byte>, n: nat) {
    |buffer| == 64 && size <= 64 && |bytes| == 64 * n + size && buffer[..size] == bytes[64 * n..]
  }

  /** `hash` covers the first `n` blocks of `bytes`; `buffer` holds the rest. */
  ghost predicate Absorbed(hash: seq<Word>, buffer: seq<Byte>, size: nat, bytes: seq<Byte>, n: nat) {
    Buffered(buffer, size, bytes, n) && hash == HashBlocks(bytes, n)
  }

  /** Hashing whole blocks does not look at what follows them. */
  lemma {:induction false} HashBlocksPrefix(left: seq<Byte>, right: seq<Byte>, n: nat)
    requires 64 * n <= |left|
    ensures HashBlocks(left + right, n) == HashBlocks(left, n)
  {
    hide Compress;
    if n > 0 {
      HashBlocksPrefix(left, right, n - 1);
      assert (left + right)[64 * (n - 1)..64 * n] == left[64 * (n - 1)..64 * n];
    }
  }

  /** One more byte in the buffer is one more byte of the message. */
  lemma BufferByte(buffer: seq<Byte>, size: nat, bytes: seq<Byte>, n: nat, b: Byte)
    requires Buffered(buffer, size, bytes, n) && size < 64
    ensures Buffered(buffer[size := b], size + 1, bytes + [b], n)
  {
    var stored := buffer[size := b];
    assert stored[..size + 1] == buffer[..size] + [b];
    assert (bytes + [b])[64 * n..] == bytes[64 * n..] + [b];
  }

  /** A full buffer is the next block of the message. */
  lemma FullBufferIsBlock(buffer: seq<Byte>, bytes: seq<Byte>, n: nat)
    requires Buffered(buffer, 64, bytes, n)
    ensures 64 * (n + 1) <= |bytes| && buffer == bytes[64 * n..64 * (n + 1)] && Buffered(buffer, 0, bytes, n + 1)
  {
    assert buffer == buffer[..64] == bytes[64 * n..64 * (n + 1)];
  }

  lemma NextBlock(bytes: seq<Byte>, n: nat)
    requires 64 * (n + 1) <= |bytes|
    ensures HashBlocks(bytes, n + 1) == Compress(HashBlocks(bytes, n), bytes[64 * n..64 * (n + 1)])
  {}

  // ---- Hexadecimal output --------------------------------------------------------

  function HexDigit(n: int): char
    requires 0 <= n < 16
  {
    if n < 10 then (48 + n) as char else (87 + n) as char  // '0'.. and 'a'..
  }

  /** Two digits, zero filled. */
  function ByteHex(b: Byte): (text: string)
    ensures |text| == 2
  {
    [HexDigit(b as int / 16), HexDigit(b as int % 16)]
  }

  /** Byte `i` of a word, the most significant first. */
  function ByteAt(w: Word, i: nat): Byte
    requires i < 4
  {
    (if i == 0 then w as int / 0x100_0000
     else if i == 1 then (w as int / 0x1_0000) % 256
     else if i == 2 then (w as int / 0x100) % 256
     else w as int % 256) as Byte
  }

  function WordHex(w: Word): (text: string)
    ensures |text| == 8
  {
    ByteHex(ByteAt(w, 0)) + ByteHex(ByteAt(w, 1)) + ByteHex(ByteAt(w, 2)) + ByteHex(ByteAt(w, 3))
  }

  function StateHex(words: seq<Word>): (text: string)
    ensures |text| == 8 * |words|
  {
    if words == [] then "" else StateHex(words[..|words| - 1]) + WordHex(words[|words| - 1])
  }

  lemma ByteHexInjective(x: Byte, y: Byte)
    requires ByteHex(x) == ByteHex(y)
    ensures x == y
  {
    assert ByteHex(x)[0] == ByteHex(y)[0] && ByteHex(x)[1] == ByteHex(y)[1];
  }

  lemma {:induction false} StateHexInjective(xs: seq<Word>, ys: seq<Word>)
    requires |xs| == |ys| && StateHex(xs) == StateHex(ys)
    ensures xs == ys
  {
    hide WordHex;
    if xs != [] {
      var n := |xs| - 1;
      SameFrontAndBack(StateHex(xs[..n]), WordHex(xs[n]), StateHex(ys[..n]), WordHex(ys[n]));
      WordHexInjective(xs[n], ys[n]);
      StateHexInjective(xs[..n], ys[..n]);
      assert xs == xs[..n] + [xs[n]] && ys == ys[..n] + [ys[n]];
    }
  }

  lemma SameFrontAndBack(a: string, b: string, c: string, d: string)
    requires |a| == |c| && a + b == c + d
    ensures a == c && b == d
  {
    assert (a + b)[..|a|] == a && (c + d)[..|c|] == c;
    assert (a + b)[|a|..] == b && (c + d)[|c|..] == d;
  }

  lemma PairsEqual(a: string, b: string, c: string, d: string, x: string, y: string, z: string, w: string)
    requires |a| == |b| == |c| == |d| == |x| == |y| == |z| == |w| == 2
    requires a + b + c + d == x + y + z + w
    ensures a == x && b == y && c == z && d == w
  {
    var left, right := a + b + c + d, x + y + z + w;
    assert a == left[..2] && b == left[2..4] && c == left[4..6] && d == left[6..8];
    assert x == right[..2] && y == right[2..4] && z == right[4..6] && w == right[6..8];
  }

  lemma WordHexInjective(x: Word, y: Word)
    requires WordHex(x) == WordHex(y)
    ensures x == y
  {
    hide ByteHex, ByteAt;
    PairsEqual(ByteHex(ByteAt(x, 0)), ByteHex(ByteAt(x, 1)), ByteHex(ByteAt(x, 2)), ByteHex(ByteAt(x, 3)),
               ByteHex(ByteAt(y, 0)), ByteHex(ByteAt(y, 1)), ByteHex(ByteAt(y, 2)), ByteHex(ByteAt(y, 3)));
    ByteHexInjective(ByteAt(x, 0), ByteAt(y, 0));
    ByteHexInjective(ByteAt(x, 1), ByteAt(y, 1));
    ByteHexInjective(ByteAt(x, 2), ByteAt(y, 2));
    ByteHexInjective(ByteAt(x, 3), ByteAt(y, 3));
    SameBytesSameWord(x, y);
  }

  lemma SameBytesSameWord(x: Word, y: Word)
    requires ByteAt(x, 0) == ByteAt(y, 0) && ByteAt(x, 1) == ByteAt(y, 1)
    requires ByteAt(x, 2) == ByteAt(y, 2) && ByteAt(x, 3) == ByteAt(y, 3)
    ensures x == y
  {
    BytesOfWord(x);
    BytesOfWord(y);
    hide ByteAt;
  }

  lemma BytesOfWord(w: Word)
    ensures w as int == ByteAt(w, 0) as int * 0x100_0000 + ByteAt(w, 1) as int * 0x1_0000
                        + ByteAt(w, 2) as int * 0x100 + ByteAt(w, 3) as int
  {
    var high := w as int / 0x100;
    assert high / 0x100 == w as int / 0x1_0000 && high / 0x1_0000 == w as int / 0x100_0000;
  }

  // ---- The object ------------------------------------------------------------------

  method ReadBigEndianWord(bytes: seq<Byte>) returns (word: Word)
    requires |bytes| == 4
    ensures word == BigEndianWord(bytes)
  {
    var value: int := 0;
    for i := 0 to 4
      invariant value == FromBigEndian(bytes[..i])
      invariant 0 <= value < Power256(i)
    {
      assert bytes[..i + 1][..i] == bytes[..i];
      value := value * 256 + bytes[i] as int;
    }
    FourBytes(bytes);
    word := value as Word;
  }

  lemma FourBytes(bytes: seq<Byte>)
    requires |bytes| == 4
    ensures FromBigEndian(bytes[..4]) == BigEndianWord(bytes) as nat
  {
    assert bytes[..4][..3] == bytes[..3] && bytes[..3][..2] == bytes[..2] && bytes[..2][..1] == bytes[..1];
    assert FromBigEndian(bytes[..1]) == bytes[0] as nat;
    assert FromBigEndian(bytes[..2]) == bytes[0] as nat * 256 + bytes[1] as nat;
    assert FromBigEndian(bytes[..3]) == bytes[0] as nat * 0x1_0000 + bytes[1] as nat * 256 + bytes[2] as nat;
  }

  method DigestToHex(words: seq<Word>) returns (text: string)
    ensures text == StateHex(words)
  {
    hide ByteHex, ByteAt;
    text := "";
    for i := 0 to |words|
      invariant text == StateHex(words[..i])
    {
      assert words[..i + 1][..i] == words[..i];
      ghost var before := text;
      for j := 0 to 4
        invariant text == before + WordHex(words[i])[..2 * j]
      {
        text := text + ByteHex(ByteAt(words[i], j));
      }
    }
    assert words[..|words|] == words;
  }

  class Sha256 {
    const state: array<Word>
    const buffer: array<Byte>
    var bufferSize: nat
    var byteCount: nat
    ghost var seen: seq<Byte>  // every byte stored so far
    ghost var blocks: nat      // how many blocks have been compressed

    ghost predicate Holding()
      reads this, state, buffer
    {
      state.Length == 8 && buffer.Length == 64 && Absorbed(state[..], buffer[..], bufferSize, seen, blocks)
    }

    /** Between calls: what has been seen is exactly the message fed so far. */
    ghost predicate Valid()
      reads this, state, buffer
    {
      Holding() && bufferSize < 64 && byteCount == |seen| <= MAX_BYTES
    }

    constructor ()
      ensures Valid() && seen == [] && fresh(state) && fresh(buffer)
    {
      state := new Word[8](i requires 0 <= i < 8 => INITIAL_STATE[i]);
      buffer := new Byte[64](_ => 0);
      bufferSize := 0;
      byteCount := 0;
      seen := [];
      blocks := 0;
      new;
      assert state[..] == INITIAL_STATE;
    }

    /** Replaces the state by its compression with the buffer. */
    method Transform()
      requires state.Length == 8 && buffer.Length == 64
      modifies state
      ensures state[..] == Compress(old(state[..]), buffer[..])
    {
      hide Add, Rounds, Compress;
      ghost var hash := state[..];
      var schedule := Schedule(buffer[..]);
      var v := RunRounds(state[..], buffer[..], schedule);
      SumsOfLanes(hash, buffer[..]);
      state[0], state[1], state[2], state[3], state[4], state[5], state[6], state[7] :=
        Add(state[0], v.a), Add(state[1], v.b), Add(state[2], v.c), Add(state[3], v.d),
        Add(state[4], v.e), Add(state[5], v.f), Add(state[6], v.g), Add(state[7], v.h);
    }

    /** The guard on the 64-bit bit count: refuses (the code throws) instead of wrapping. */
    method AddByteCount(added: nat) returns (ok: bool)
      requires byteCount <= MAX_BYTES
      modifies this`byteCount
      ensures ok <==> old(byteCount) + added <= MAX_BYTES
      ensures byteCount == if ok then old(byteCount) + added else old(byteCount)
      ensures 8 * byteCount <= 0xFFFF_FFFF_FFFF_FFFF
    {
      if added > MAX_BYTES - byteCount {
        return false;
      }
      byteCount := byteCount + added;
      return true;
    }

    /** Stores one byte in the buffer. */
    method Store(b: Byte)
      requires Holding() && bufferSize < 64
      modifies this`bufferSize, this`seen, buffer
      ensures Holding() && bufferSize == old(bufferSize) + 1 && seen == old(seen) + [b]
    {
      hide Buffered, HashBlocks;
      ghost var hash, before := state[..], buffer[..];
      BufferByte(before, bufferSize, seen, blocks, b);
      BlocksFit(before, bufferSize, seen, blocks);
      HashBlocksPrefix(seen, [b], blocks);
      buffer[bufferSize] := b;
      assert state[..] == hash;
      assert buffer[..] == before[bufferSize := b];
      bufferSize := bufferSize + 1;
      seen := seen + [b];
    }

    /** Compresses the full buffer into the state and empties it. */
    method Flush()
      requires Holding() && bufferSize == 64
      modifies this`bufferSize, this`blocks, state
      ensures Holding() && bufferSize == 0
    {
      hide Buffered, HashBlocks, Compress;
      ghost var block := buffer[..];
      FullBufferIsBlock(block, seen, blocks);
      NextBlock(seen, blocks);
      Transform();
      assert buffer[..] == block;
      bufferSize := 0;
      blocks := blocks + 1;
    }

    /** Feeds `bytes`; on refusal nothing changes. */
    method Update(bytes: seq<Byte>) returns (ok: bool)
      requires Valid()
      modifies this, state, buffer
      ensures Valid()
      ensures ok <==> |old(seen)| + |bytes| <= MAX_BYTES
      ensures seen == if ok then old(seen) + bytes else old(seen)
    {
      hide Absorbed;
      ok := AddByteCount(|bytes|);
      if !ok {
        return;
      }
      for i := 0 to |bytes|
        invariant Holding() && bufferSize < 64
        invariant seen == old(seen) + bytes[..i]
        invariant byteCount == |old(seen)| + |bytes|
      {
        Store(bytes[i]);
        if bufferSize == 64 {
          Flush();
        }
        assert bytes[..i + 1] == bytes[..i] + [bytes[i]];
      }
      assert bytes[..|bytes|] == bytes;
    }

    /** Stores zero bytes up to position `limit`. */
    method StoreZeros(limit: nat)
      requires Holding() && bufferSize <= limit <= 64
      modifies this`bufferSize, this`seen, buffer
      ensures Holding() && bufferSize == limit && seen == old(seen) + Zeros(limit - old(bufferSize))
    {
      hide Absorbed;
      assert seen + Zeros(0) == seen;
      while bufferSize < limit
        invariant Holding() && old(bufferSize) <= bufferSize <= limit
        invariant seen == old(seen) + Zeros(bufferSize - old(bufferSize))
      {
        ghost var zeros := bufferSize - old(bufferSize);
        Store(0);
        assert Zeros(zeros) + [0] == Zeros(zeros + 1);
      }
    }

    /** Writes the 64-bit length into the last eight bytes of the buffer. */
    method WriteLength(totalBitCount: nat)
      requires Holding() && bufferSize == 56
      modifies buffer
      ensures Buffered(buffer[..], 64, seen + BigEndianBytes(totalBitCount, 8), blocks)
    {
      hide Buffered, HashBlocks, BigEndianBytes;
      ghost var length := BigEndianBytes(totalBitCount, 8);
      assert seen + length[..0] == seen;
      for i := 0 to 8
        invariant Buffered(buffer[..], 56 + i, seen + length[..i], blocks)
      {
        var b := LengthByte(totalBitCount, i);
        BigEndianByteAt(totalBitCount, 8, i);
        ghost var before := buffer[..];
        BufferByte(before, 56 + i, seen + length[..i], blocks, b);
        buffer[56 + i] := b;
        assert buffer[..] == before[56 + i := b];
        assert seen + length[..i] + [b] == seen + length[..i + 1];
      }
      assert length[..8] == length;
    }

    /** Fills and compresses a block in which the length field does not fit. */
    method MakeRoomForLength() returns (ghost zeros: nat)
      requires Holding() && bufferSize <= 64
      modifies this`bufferSize, this`seen, this`blocks, state, buffer
      ensures Holding() && bufferSize <= 56 && seen == old(seen) + Zeros(zeros)
      ensures if old(bufferSize) > 56 then bufferSize == 0 && zeros == 64 - old(bufferSize)
              else bufferSize == old(bufferSize) && zeros == 0
    {
      hide Absorbed;
      zeros := 0;
      assert seen == seen + Zeros(0);
      if bufferSize > 56 {
        zeros := 64 - bufferSize;
        StoreZeros(64);
        Flush();
      }
    }

    /** 0x80, then zeros up to the length field. */
    method PadWithZeros()
      requires Valid()
      modifies this`bufferSize, this`seen, this`blocks, state, buffer
      ensures Holding() && bufferSize == 56
      ensures seen == old(seen) + [0x80 as Byte] + Zeros(ZeroCount(|old(seen)|))
    {
      RestIsRemainder(buffer[..], bufferSize, seen, blocks);
      hide Absorbed, Zeros, ZeroCount;
      ghost var message, size := seen, bufferSize + 1;
      Store(0x80);
      var zeros := MakeRoomForLength();
      ghost var more := 56 - bufferSize;
      StoreZeros(56);
      ZerosInTwoParts(message, size, zeros, more);
    }

    /** Pads, and returns the digest of everything that update accepted. */
    method Finish() returns (text: string)
      requires Valid()
      modifies this, state, buffer
      ensures text == StateHex(Digest(old(seen)))
    {
      hide Buffered, BigEndianBytes, Compress, HashBlocks;
      var totalBitCount := byteCount * 8;
      PadWithZeros();
      BlocksFit(buffer[..], bufferSize, seen, blocks);
      HashBlocksPrefix(seen, BigEndianBytes(totalBitCount, 8), blocks);
      WriteLength(totalBitCount);
      ghost var message, block := Padded(old(seen)), buffer[..];
      FullBufferIsBlock(block, message, blocks);
      NextBlock(message, blocks);
      Transform();
      WholeMessage(block, old(seen), blocks + 1);
      text := DigestToHex(state[..]);
    }
  }

  lemma ZerosInTwoParts(message: seq<Byte>, size: nat, zeros: nat, more: nat)
    requires size == |message| % 64 + 1
    requires zeros == if size > 56 then 64 - size else 0
    requires more == if size > 56 then 56 else 56 - size
    ensures message + [0x80 as Byte] + Zeros(zeros) + Zeros(more)
      == message + [0x80 as Byte] + Zeros(ZeroCount(|message|))
  {
    assert Zeros(zeros) + Zeros(more) == Zeros(zeros + more);
  }

  lemma RestIsRemainder(buffer: seq<Byte>, size: nat, bytes: seq<Byte>, n: nat)
    requires Buffered(buffer, size, bytes, n) && size < 64
    ensures |bytes| % 64 == size
  {}

  lemma BlocksFit(buffer: seq<Byte>, size: nat, bytes: seq<Byte>, n: nat)
    requires Buffered(buffer, size, bytes, n)
    ensures 64 * n <= |bytes|
  {}

  /** With nothing left in the buffer, all blocks of the padding have been hashed. */
  lemma WholeMessage(buffer: seq<Byte>, message: seq<Byte>, n: nat)
    requires Buffered(buffer, 0, Padded(message), n)
    ensures n == BlockCount(|message|)
  {
    PaddedIsWholeBlocks(message);
    hide Padded;
  }

  lemma SumsOfLanes(hash: seq<Word>, block: seq<Byte>)
    requires |hash| == 8 && |block| == 64
    ensures var v := Rounds(hash, block, 64);
      Compress(hash, block) == [Add(hash[0], v.a), Add(hash[1], v.b), Add(hash[2], v.c), Add(hash[3], v.d),
                                Add(hash[4], v.e), Add(hash[5], v.f), Add(hash[6], v.g), Add(hash[7], v.h)]
  {
    hide Add, Rounds;
  }

  /** Byte `i` of an eight-byte big-endian number, by shift and mask. */
  function LengthByte(total: nat, i: nat): Byte
    requires i < 8
  {
    ((total / Power256(7 - i)) % 256) as Byte
  }

  /** The message schedule of one block. */
  method Schedule(block: seq<Byte>) returns (schedule: array<Word>)
    requires |block| == 64
    ensures fresh(schedule) && schedule.Length == 64
    ensures forall k :: 0 <= k < 64 ==> schedule[k] == ScheduleWord(block, k)
  {
    hide Add, SmallSigma0, SmallSigma1, BigEndianWord;
    schedule := new Word[64](_ => 0);
    for i := 0 to 16
      invariant forall k :: 0 <= k < i ==> schedule[k] == ScheduleWord(block, k)
    {
      schedule[i] := ReadBigEndianWord(block[4 * i..4 * i + 4]);
    }
    for i := 16 to 64
      invariant forall k :: 0 <= k < i ==> schedule[k] == ScheduleWord(block, k)
    {
      schedule[i] := Add(Add(Add(SmallSigma1(schedule[i - 2]), schedule[i - 7]), SmallSigma0(schedule[i - 15])),
        schedule[i - 16]);
    }
  }

  /** The 64 rounds, on eight working variables. */
  method RunRounds(hash: seq<Word>, ghost block: seq<Byte>, schedule: array<Word>) returns (v: Variables)
    requires |hash| == 8 && |block| == 64 && schedule.Length == 64
    requires forall k :: 0 <= k < 64 ==> schedule[k] == ScheduleWord(block, k)
    ensures v == Rounds(hash, block, 64)
  {
    hide Add, BigSigma0, BigSigma1, Ch, Maj, RoundConstant, ScheduleWord;
    var a, b, c, d := hash[0], hash[1], hash[2], hash[3];
    var e, f, g, h := hash[4], hash[5], hash[6], hash[7];
    for i := 0 to 64
      invariant Variables(a, b, c, d, e, f, g, h) == Rounds(hash, block, i)
    {
      var t1 := Add(Add(Add(Add(h, BigSigma1(e)), Ch(e, f, g)), RoundConstant(i)), schedule[i]);
      var t2 := Add(BigSigma0(a), Maj(a, b, c));
      h := g;
      g := f;
      f := e;
      e := Add(d, t1);
      d := c;
      c := b;
      b := a;
      a := Add(t1, t2);
    }
    v := Variables(a, b, c, d, e, f, g, h);
  }

  function Concatenated(chunks: seq<seq<Byte>>): seq<Byte> {
    if chunks == [] then [] else Concatenated(chunks[..|chunks| - 1]) + chunks[|chunks| - 1]
  }

  lemma OneMorePiece(chunks: seq<seq<Byte>>, k: nat)
    requires k < |chunks|
    ensures Concatenated(chunks[..k + 1]) == Concatenated(chunks[..k]) + chunks[k]
  {
    assert chunks[..k + 1][..k] == chunks[..k];
  }

  lemma {:induction false} PrefixIsShorter(chunks: seq<seq<Byte>>, k: nat)
    requires k <= |chunks|
    ensures |Concatenated(chunks[..k])| <= |Concatenated(chunks)|
  {
    if k < |chunks| {
      assert chunks[..|chunks| - 1][..k] == chunks[..k];
      PrefixIsShorter(chunks[..|chunks| - 1], k);
    } else {
      assert chunks[..k] == chunks;
    }
  }

  /** A file is hashed in the pieces its reads deliver.  However the bytes are
      split, the printed digest is that of the whole; None is the thrown overflow. */
  method HashChunks(chunks: seq<seq<Byte>>) returns (text: Option<string>)
    ensures text == if |Concatenated(chunks)| <= MAX_BYTES then Some(StateHex(Digest(Concatenated(chunks)))) else None
  {
    hide Digest, StateHex, Absorbed;
    var sha256 := new Sha256();
    for i := 0 to |chunks|
      invariant fresh(sha256) && fresh(sha256.state) && fresh(sha256.buffer)
      invariant sha256.Valid() && sha256.seen == Concatenated(chunks[..i])
    {
      OneMorePiece(chunks, i);
      var ok := sha256.Update(chunks[i]);
      if !ok {
        PrefixIsShorter(chunks, i + 1);
        return None;
      }
    }
    assert chunks[..|chunks|] == chunks;
    var digest := sha256.Finish();
    text := Some(digest);
  }
}
