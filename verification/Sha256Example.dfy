/**
 The one-block example of SHA-256 that NIST gives with FIPS 180-4, the message `abc`,
 computed step by step.  Every constant, rotation and addition enters the result.
 */
module Sha256Example {
  import opened Sha256Standard
  import opened ContentHashing

  const ABC: seq<Byte> := [0x61, 0x62, 0x63]

  const ABC_DIGEST: seq<Word> := [
    0xba7816bf, 0x8f01cfea, 0x414140de, 0x5dae2223, 0xb00361a3, 0x96177a9c, 0xb410ff61, 0xf20015ad]

  // ---- Sums of known words ----------------------------------------------------------------

  function Wrap(n: nat): Word { (n % 0x1_0000_0000) as Word }

  lemma WrapWord(x: Word)
    ensures Wrap(x as nat) == x
  {}

  lemma WrapCarry(x: Word, carry: nat)
    ensures Wrap(x as nat + carry * 0x1_0000_0000) == x
  {}

  lemma AddWrap(n: nat, x: Word)
    ensures Add(Wrap(n), x) == Wrap(n + x as nat)
  {}

  lemma WrapSum(m: nat, n: nat)
    ensures Add(Wrap(m), Wrap(n)) == Wrap(m + n)
  {}

  // ---- The block ------------------------------------------------------------------------

  ghost predicate IsBlock(block: seq<Byte>) {
    && |block| == 64 && block[0] == 0x61 && block[1] == 0x62 && block[2] == 0x63 && block[3] == 0x80
    && (forall i :: 4 <= i < 63 ==> block[i] == 0) && block[63] == 24
  }

  lemma PaddedIsBlock()
    ensures IsBlock(Padded(ABC))
  {
    PaddedIsWholeBlocks(ABC);
    assert ZeroCount(|ABC|) == 52;
    forall i: nat | i < 8 ensures BigEndianBytes(24, 8)[i] == if i < 7 then 0 else 24 {
      BigEndianByteAt(24, 8, i);
      HighByte(i);
    }
  }

  lemma HighByte(i: nat)
    requires i < 8
    ensures (24 / Power256(7 - i)) % 256 == if i < 7 then 0 else 24
  {
    if i < 7 {
      Quotient(Power256(6 - i));
    } else {
      assert Power256(0) == 1;
    }
  }

  lemma Quotient(p: nat)
    requires p > 0
    ensures 24 / (256 * p) == 0
  {}

  lemma FirstWords(block: seq<Byte>, t: nat)
    requires IsBlock(block) && t < 16
    ensures ScheduleWord(block, t) == if t == 0 then 0x61626380 else if t == 15 then 24 else 0
  {
    var bytes := block[4 * t..4 * t + 4];
    assert bytes[0] == block[4 * t] && bytes[1] == block[4 * t + 1];
    assert bytes[2] == block[4 * t + 2] && bytes[3] == block[4 * t + 3];
  }

  // ---- The schedule ---------------------------------------------------------------------

  /** Word `t` from the four words it is made of, two of which come with what the sigma
      functions make of them. */
  lemma NextWord(block: seq<Byte>, t: nat, w2: Word, s1: Word, w7: Word, w15: Word, s0: Word, w16: Word, w: Word,
      carry: nat)
    requires |block| == 64 && 16 <= t < 64
    requires ScheduleWord(block, t - 2) == w2 && ScheduleWord(block, t - 7) == w7
    requires ScheduleWord(block, t - 15) == w15 && ScheduleWord(block, t - 16) == w16
    requires SmallSigma1(w2) == s1 && SmallSigma0(w15) == s0
    requires s1 as nat + w7 as nat + s0 as nat + w16 as nat == w as nat + carry * 0x1_0000_0000
    ensures ScheduleWord(block, t) == w
  {
    hide Add, Wrap, SmallSigma0, SmallSigma1;
    WrapWord(s1);
    AddWrap(s1 as nat, w7);
    AddWrap(s1 as nat + w7 as nat, s0);
    AddWrap(s1 as nat + w7 as nat + s0 as nat, w16);
    WrapCarry(w, carry);
  }

  lemma Words0(block: seq<Byte>)
    requires |block| == 64 && IsBlock(block)
    ensures ScheduleWord(block, 0) == 0x61626380 && ScheduleWord(block, 1) == 0x00000000
    ensures ScheduleWord(block, 2) == 0x00000000 && ScheduleWord(block, 3) == 0x00000000
    ensures ScheduleWord(block, 4) == 0x00000000 && ScheduleWord(block, 5) == 0x00000000
    ensures ScheduleWord(block, 6) == 0x00000000 && ScheduleWord(block, 7) == 0x00000000
    ensures ScheduleWord(block, 8) == 0x00000000 && ScheduleWord(block, 9) == 0x00000000
    ensures ScheduleWord(block, 10) == 0x00000000 && ScheduleWord(block, 11) == 0x00000000
    ensures ScheduleWord(block, 12) == 0x00000000 && ScheduleWord(block, 13) == 0x00000000
    ensures ScheduleWord(block, 14) == 0x00000000 && ScheduleWord(block, 15) == 0x00000018
  {
    hide ScheduleWord, IsBlock;
    FirstWords(block, 0);
    FirstWords(block, 1);
    FirstWords(block, 2);
    FirstWords(block, 3);
    FirstWords(block, 4);
    FirstWords(block, 5);
    FirstWords(block, 6);
    FirstWords(block, 7);
    FirstWords(block, 8);
    FirstWords(block, 9);
    FirstWords(block, 10);
    FirstWords(block, 11);
    FirstWords(block, 12);
    FirstWords(block, 13);
    FirstWords(block, 14);
    FirstWords(block, 15);
  }

  lemma Words16(block: seq<Byte>)
    requires |block| == 64 && IsBlock(block)
    ensures ScheduleWord(block, 16) == 0x61626380 && ScheduleWord(block, 17) == 0x000f0000
    ensures ScheduleWord(block, 18) == 0x7da86405 && ScheduleWord(block, 19) == 0x600003c6
    ensures ScheduleWord(block, 20) == 0x3e9d7b78 && ScheduleWord(block, 21) == 0x0183fc00
    ensures ScheduleWord(block, 22) == 0x12dcbfdb && ScheduleWord(block, 23) == 0xe2e2c38e
  {
    hide ScheduleWord, IsBlock, Add, Wrap, BigSigma0, BigSigma1, Ch, Maj;
    Words0(block);
    NextWord(block, 16, 0x00000000, 0x00000000, 0x00000000, 0x00000000, 0x00000000, 0x61626380, 0x61626380, 0);
    NextWord(block, 17, 0x00000018, 0x000f0000, 0x00000000, 0x00000000, 0x00000000, 0x00000000, 0x000f0000, 0);
    NextWord(block, 18, 0x61626380, 0x7da86405, 0x00000000, 0x00000000, 0x00000000, 0x00000000, 0x7da86405, 0);
    NextWord(block, 19, 0x000f0000, 0x600003c6, 0x00000000, 0x00000000, 0x00000000, 0x00000000, 0x600003c6, 0);
    NextWord(block, 20, 0x7da86405, 0x3e9d7b78, 0x00000000, 0x00000000, 0x00000000, 0x00000000, 0x3e9d7b78, 0);
    NextWord(block, 21, 0x600003c6, 0x0183fc00, 0x00000000, 0x00000000, 0x00000000, 0x00000000, 0x0183fc00, 0);
    NextWord(block, 22, 0x3e9d7b78, 0x12dcbfc3, 0x00000018, 0x00000000, 0x00000000, 0x00000000, 0x12dcbfdb, 0);
    NextWord(block, 23, 0x0183fc00, 0x8180600e, 0x61626380, 0x00000000, 0x00000000, 0x00000000, 0xe2e2c38e, 0);
  }

  lemma Words24(block: seq<Byte>)
    requires |block| == 64 && IsBlock(block)
    ensures ScheduleWord(block, 24) == 0xc8215c1a && ScheduleWord(block, 25) == 0xb73679a2
    ensures ScheduleWord(block, 26) == 0xe5bc3909 && ScheduleWord(block, 27) == 0x32663c5b
    ensures ScheduleWord(block, 28) == 0x9d209d67 && ScheduleWord(block, 29) == 0xec8726cb
    ensures ScheduleWord(block, 30) == 0x702138a4 && ScheduleWord(block, 31) == 0xd3b7973b
  {
    hide ScheduleWord, IsBlock, Add, Wrap, BigSigma0, BigSigma1, Ch, Maj;
    Words0(block);
    Words16(block);
    NextWord(block, 24, 0x12dcbfdb, 0xc8125c1a, 0x000f0000, 0x00000000, 0x00000000, 0x00000000, 0xc8215c1a, 0);
    NextWord(block, 25, 0xe2e2c38e, 0x398e159d, 0x7da86405, 0x00000000, 0x00000000, 0x00000000, 0xb73679a2, 0);
    NextWord(block, 26, 0xc8215c1a, 0x85bc3543, 0x600003c6, 0x00000000, 0x00000000, 0x00000000, 0xe5bc3909, 0);
    NextWord(block, 27, 0xb73679a2, 0xf3c8c0e3, 0x3e9d7b78, 0x00000000, 0x00000000, 0x00000000, 0x32663c5b, 1);
    NextWord(block, 28, 0xe5bc3909, 0x9b9ca167, 0x0183fc00, 0x00000000, 0x00000000, 0x00000000, 0x9d209d67, 0);
    NextWord(block, 29, 0x32663c5b, 0xd9aa66f0, 0x12dcbfdb, 0x00000000, 0x00000000, 0x00000000, 0xec8726cb, 0);
    NextWord(block, 30, 0x9d209d67, 0x5d387513, 0xe2e2c38e, 0x00000018, 0x30060003, 0x00000000, 0x702138a4, 1);
    NextWord(block, 31, 0xec8726cb, 0x7787aa1a, 0xc8215c1a, 0x61626380, 0x940e90ef, 0x00000018, 0xd3b7973b, 1);
  }

  lemma Words32(block: seq<Byte>)
    requires |block| == 64 && IsBlock(block)
    ensures ScheduleWord(block, 32) == 0x93f5997f && ScheduleWord(block, 33) == 0x3b68ba73
    ensures ScheduleWord(block, 34) == 0xaff4ffc1 && ScheduleWord(block, 35) == 0xf10a5c62
    ensures ScheduleWord(block, 36) == 0x0a8b3996 && ScheduleWord(block, 37) == 0x72af830a
    ensures ScheduleWord(block, 38) == 0x9409e33e && ScheduleWord(block, 39) == 0x24641522
  {
    hide ScheduleWord, IsBlock, Add, Wrap, BigSigma0, BigSigma1, Ch, Maj;
    Words16(block);
    Words24(block);
    NextWord(block, 32, 0x702138a4, 0xbb5abe5a, 0xb73679a2, 0x000f0000, 0xc001fe03, 0x61626380, 0x93f5997f, 2);
    NextWord(block, 33, 0xd3b7973b, 0x394e7e48, 0xe5bc3909, 0x7da86405, 0x1c4f0322, 0x000f0000, 0x3b68ba73, 1);
    NextWord(block, 34, 0x93f5997f, 0x7fb4c6e2, 0x32663c5b, 0x600003c6, 0x8031987f, 0x7da86405, 0xaff4ffc1, 1);
    NextWord(block, 35, 0x3b68ba73, 0x4a7920f7, 0x9d209d67, 0x3e9d7b78, 0xa9709a3e, 0x600003c6, 0xf10a5c62, 1);
    NextWord(block, 36, 0xaff4ffc1, 0xe0331f3b, 0xec8726cb, 0x0183fc00, 0xff337818, 0x3e9d7b78, 0x0a8b3996, 3);
    NextWord(block, 37, 0xf10a5c62, 0x65816433, 0x702138a4, 0x12dcbfdb, 0x9b88ea33, 0x0183fc00, 0x72af830a, 1);
    NextWord(block, 38, 0x0a8b3996, 0xfbfb66da, 0xd3b7973b, 0xe2e2c38e, 0xb17a254e, 0x12dcbfdb, 0x9409e33e, 2);
    NextWord(block, 39, 0x72af830a, 0x31f8dce2, 0x93f5997f, 0xc8215c1a, 0x7b92db33, 0xe2e2c38e, 0x24641522, 2);
  }

  lemma Words40(block: seq<Byte>)
    requires |block| == 64 && IsBlock(block)
    ensures ScheduleWord(block, 40) == 0x9f47bf94 && ScheduleWord(block, 41) == 0xf0a64f5a
    ensures ScheduleWord(block, 42) == 0x3e246a79 && ScheduleWord(block, 43) == 0x27333ba3
    ensures ScheduleWord(block, 44) == 0x0c4763f2 && ScheduleWord(block, 45) == 0x840abf27
    ensures ScheduleWord(block, 46) == 0x7a290d5d && ScheduleWord(block, 47) == 0x065c43da
  {
    hide ScheduleWord, IsBlock, Add, Wrap, BigSigma0, BigSigma1, Ch, Maj;
    Words24(block);
    Words32(block);
    NextWord(block, 40, 0x9409e33e, 0xcddd9afd, 0x3b68ba73, 0xb73679a2, 0xcde00e0a, 0xc8215c1a, 0x9f47bf94, 2);
    NextWord(block, 41, 0x24641522, 0x883c4fbb, 0xaff4ffc1, 0xe5bc3909, 0x013e863c, 0xb73679a2, 0xf0a64f5a, 1);
    NextWord(block, 42, 0x9f47bf94, 0x281f0da4, 0xf10a5c62, 0x32663c5b, 0x3f3ec76a, 0xe5bc3909, 0x3e246a79, 2);
    NextWord(block, 43, 0xf0a64f5a, 0xee7a0fd4, 0x0a8b3996, 0x9d209d67, 0xfbc7b5de, 0x32663c5b, 0x27333ba3, 2);
    NextWord(block, 44, 0x3e246a79, 0xb87c31cc, 0x72af830a, 0xec8726cb, 0x43fb11b5, 0x9d209d67, 0x0c4763f2, 2);
    NextWord(block, 45, 0x27333ba3, 0xfaac3bb1, 0x9409e33e, 0x702138a4, 0x08cd796d, 0xec8726cb, 0x840abf27, 2);
    NextWord(block, 46, 0x0c4763f2, 0x5d845673, 0x24641522, 0xd3b7973b, 0x881f6924, 0x702138a4, 0x7a290d5d, 1);
    NextWord(block, 47, 0x840abf27, 0x0856302b, 0x9f47bf94, 0x93f5997f, 0x8b06bce0, 0xd3b7973b, 0x065c43da, 2);
  }

  lemma Words48(block: seq<Byte>)
    requires |block| == 64 && IsBlock(block)
    ensures ScheduleWord(block, 48) == 0xfb3e89cb && ScheduleWord(block, 49) == 0xcc7617db
    ensures ScheduleWord(block, 50) == 0xb9e66c34 && ScheduleWord(block, 51) == 0xa9993667
    ensures ScheduleWord(block, 52) == 0x84badedd && ScheduleWord(block, 53) == 0xc21462bc
    ensures ScheduleWord(block, 54) == 0x1487472c && ScheduleWord(block, 55) == 0xb20f7a99
  {
    hide ScheduleWord, IsBlock, Add, Wrap, BigSigma0, BigSigma1, Ch, Maj;
    Words32(block);
    Words40(block);
    NextWord(block, 48, 0x7a290d5d, 0xa71b9812, 0xf0a64f5a, 0x3b68ba73, 0xcf8708e0, 0x93f5997f, 0xfb3e89cb, 2);
    NextWord(block, 49, 0x065c43da, 0xa997d4f5, 0x3e246a79, 0xaff4ffc1, 0xa9511dfa, 0x3b68ba73, 0xcc7617db, 1);
    NextWord(block, 50, 0xfb3e89cb, 0x95e24d5a, 0x27333ba3, 0xf10a5c62, 0x4cdbe376, 0xaff4ffc1, 0xb9e66c34, 1);
    NextWord(block, 51, 0xcc7617db, 0xc9258230, 0x0c4763f2, 0x0a8b3996, 0xe321f3e3, 0xf10a5c62, 0xa9993667, 2);
    NextWord(block, 52, 0xb9e66c34, 0xfbb2b254, 0x840abf27, 0x72af830a, 0xfa7233cc, 0x0a8b3996, 0x84badedd, 2);
    NextWord(block, 53, 0xa9993667, 0xbdd547b2, 0x7a290d5d, 0x9409e33e, 0x17668aa3, 0x72af830a, 0xc21462bc, 1);
    NextWord(block, 54, 0x84badedd, 0x34945c7d, 0x065c43da, 0x24641522, 0x458cc397, 0x9409e33e, 0x1487472c, 1);
    NextWord(block, 55, 0xc21462bc, 0xbd397c50, 0xfb3e89cb, 0x9f47bf94, 0xd5335f5c, 0x24641522, 0xb20f7a99, 2);
  }

  lemma Words56(block: seq<Byte>)
    requires |block| == 64 && IsBlock(block)
    ensures ScheduleWord(block, 56) == 0xef57b9cd && ScheduleWord(block, 57) == 0xebe6b238
    ensures ScheduleWord(block, 58) == 0x9fe3095e && ScheduleWord(block, 59) == 0x78bc8d4b
    ensures ScheduleWord(block, 60) == 0xa43fcf15 && ScheduleWord(block, 61) == 0x668b2ff8
    ensures ScheduleWord(block, 62) == 0xeeaba2cc && ScheduleWord(block, 63) == 0x12b1edeb
  {
    hide ScheduleWord, IsBlock, Add, Wrap, BigSigma0, BigSigma1, Ch, Maj;
    Words40(block);
    Words48(block);
    NextWord(block, 56, 0x1487472c, 0x4b76a902, 0xcc7617db, 0xf0a64f5a, 0x3823395c, 0x9f47bf94, 0xef57b9cd, 1);
    NextWord(block, 57, 0xb20f7a99, 0x52336c98, 0xb9e66c34, 0x3e246a79, 0xef268a12, 0xf0a64f5a, 0xebe6b238, 2);
    NextWord(block, 58, 0xef57b9cd, 0x2be49faf, 0xa9993667, 0x27333ba3, 0x8c40c8cf, 0x3e246a79, 0x9fe3095e, 1);
    NextWord(block, 59, 0xebe6b238, 0x8f619123, 0x84badedd, 0x0c4763f2, 0x3d6ce1a8, 0x27333ba3, 0x78bc8d4b, 1);
    NextWord(block, 60, 0x9fe3095e, 0xe5a364cf, 0xc21462bc, 0x840abf27, 0xf040a398, 0x0c4763f2, 0xa43fcf15, 2);
    NextWord(block, 61, 0x78bc8d4b, 0xd712fc6a, 0x1487472c, 0x7a290d5d, 0xf6e62d3b, 0x840abf27, 0x668b2ff8, 2);
    NextWord(block, 62, 0xa43fcf15, 0x1e41696b, 0xb20f7a99, 0x065c43da, 0xa431b16b, 0x7a290d5d, 0xeeaba2cc, 1);
    NextWord(block, 63, 0x668b2ff8, 0xf21a9d5f, 0xef57b9cd, 0xfb3e89cb, 0x2ae352e5, 0x065c43da, 0x12b1edeb, 2);
  }

  // ---- The rounds -----------------------------------------------------------------------

  /** The working variables before round `t`. */
  ghost predicate Before(block: seq<Byte>, t: nat, v: Variables) {
    |block| == 64 && t <= 64 && Rounds(INITIAL_STATE, block, t) == v
  }

  lemma BeforeAll(block: seq<Byte>)
    requires |block| == 64
    ensures Before(block, 0,
      Variables(0x6a09e667, 0xbb67ae85, 0x3c6ef372, 0xa54ff53a, 0x510e527f, 0x9b05688c, 0x1f83d9ab, 0x5be0cd19))
  {}

  /** One round on known variables, with what the four functions make of them. */
  lemma NextRound(block: seq<Byte>, t: nat, w: Word, v: Variables, s1: Word, ch: Word, s0: Word, maj: Word,
      a: Word, e: Word, carryA: nat, carryE: nat)
    requires t < 64 && Before(block, t, v) && ScheduleWord(block, t) == w
    requires BigSigma1(v.e) == s1 && Ch(v.e, v.f, v.g) == ch && BigSigma0(v.a) == s0 && Maj(v.a, v.b, v.c) == maj
    requires v.h as nat + s1 as nat + ch as nat + RoundConstant(t) as nat + w as nat + s0 as nat + maj as nat
      == a as nat + carryA * 0x1_0000_0000
    requires v.d as nat + v.h as nat + s1 as nat + ch as nat + RoundConstant(t) as nat + w as nat
      == e as nat + carryE * 0x1_0000_0000
    ensures Before(block, t + 1, Variables(a, v.a, v.b, v.c, e, v.e, v.f, v.g))
  {
    hide Add, Wrap, BigSigma0, BigSigma1, Ch, Maj, ScheduleWord, RoundConstant;
    var k := RoundConstant(t);
    var t1 := v.h as nat + s1 as nat + ch as nat + k as nat + w as nat;
    WrapWord(v.h);
    AddWrap(v.h as nat, s1);
    AddWrap(v.h as nat + s1 as nat, ch);
    AddWrap(v.h as nat + s1 as nat + ch as nat, k);
    AddWrap(v.h as nat + s1 as nat + ch as nat + k as nat, w);
    WrapWord(s0);
    AddWrap(s0 as nat, maj);
    WrapSum(t1, s0 as nat + maj as nat);
    WrapWord(v.d);
    WrapSum(v.d as nat, t1);
    WrapCarry(a, carryA);
    WrapCarry(e, carryE);
  }

  lemma Rounds4(block: seq<Byte>)
    requires |block| == 64 && IsBlock(block)
    ensures Before(block, 4,
      Variables(0xd550f666, 0xc8c347a7, 0x5a6ad9ad, 0x5d6aebcd, 0x24e00850, 0xf92939eb, 0x78ce7989, 0xfa2a4622))
  {
    hide ScheduleWord, Before, IsBlock, Rounds, Round, Add, Wrap, SmallSigma0, SmallSigma1;
    BeforeAll(block);
    Words0(block);
    NextRound(block, 0, 0x61626380,
      Variables(0x6a09e667, 0xbb67ae85, 0x3c6ef372, 0xa54ff53a, 0x510e527f, 0x9b05688c, 0x1f83d9ab, 0x5be0cd19),
      0x3587272b, 0x1f85c98c, 0xce20b47e, 0x3a6fe667, 0x5d6aebcd, 0xfa2a4622, 2, 1);
    NextRound(block, 1, 0x00000000,
      Variables(0x5d6aebcd, 0x6a09e667, 0xbb67ae85, 0x3c6ef372, 0xfa2a4622, 0x510e527f, 0x9b05688c, 0x1f83d9ab),
      0x5a94fd2d, 0x510f6aae, 0xa29f64d1, 0x7b6beec5, 0x5a6ad9ad, 0x78ce7989, 2, 1);
    NextRound(block, 2, 0x00000000,
      Variables(0x5a6ad9ad, 0x5d6aebcd, 0x6a09e667, 0xbb67ae85, 0x78ce7989, 0xfa2a4622, 0x510e527f, 0x9b05688c),
      0x73f0e495, 0x790a4276, 0x3096d054, 0x5a6aebed, 0xc8c347a7, 0xf92939eb, 2, 2);
    NextRound(block, 3, 0x00000000,
      Variables(0xc8c347a7, 0x5a6ad9ad, 0x5d6aebcd, 0x6a09e667, 0xf92939eb, 0x78ce7989, 0xfa2a4622, 0x510e527f),
      0x0607743c, 0x7a0a7f89, 0xc21008d0, 0x586acbad, 0xd550f666, 0x24e00850, 2, 2);
  }

  lemma Rounds8(block: seq<Byte>)
    requires |block| == 64 && IsBlock(block)
    ensures Before(block, 8,
      Variables(0x85a07b5f, 0xe5030380, 0x2b4209f5, 0x04409a6a, 0x0c657a79, 0x9b27a401, 0x714260ad, 0x43ada245))
  {
    hide ScheduleWord, Before, IsBlock, Rounds, Round, Add, Wrap, SmallSigma0, SmallSigma1;
    Rounds4(block);
    Words0(block);
    NextRound(block, 4, 0x00000000,
      Variables(0xd550f666, 0xc8c347a7, 0x5a6ad9ad, 0x5d6aebcd, 0x24e00850, 0xf92939eb, 0x78ce7989, 0xfa2a4622),
      0x3a933432, 0x782e79c9, 0x45bb0c4b, 0xd842d7a7, 0x04409a6a, 0x43ada245, 3, 2);
    NextRound(block, 5, 0x00000000,
      Variables(0x04409a6a, 0xd550f666, 0xc8c347a7, 0x5a6ad9ad, 0x43ada245, 0x24e00850, 0xf92939eb, 0x78ce7989),
      0x8b77e19c, 0xb8a019ea, 0x5029ac8f, 0xc440d666, 0x2b4209f5, 0x714260ad, 3, 2);
    NextRound(block, 6, 0x00000000,
      Variables(0x2b4209f5, 0x04409a6a, 0xd550f666, 0xc8c347a7, 0x714260ad, 0x43ada245, 0x24e00850, 0xf92939eb),
      0x015b7776, 0x45a02855, 0x0d5e0cc0, 0x05409a66, 0xe5030380, 0x9b27a401, 1, 2);
    NextRound(block, 7, 0x00000000,
      Variables(0xe5030380, 0x2b4209f5, 0x04409a6a, 0xd550f666, 0x9b27a401, 0x714260ad, 0x43ada245, 0x24e00850),
      0x158dfaa9, 0x518a2245, 0x2949eb6c, 0x25420be0, 0x85a07b5f, 0x0c657a79, 1, 2);
  }

  lemma Rounds12(block: seq<Byte>)
    requires |block| == 64 && IsBlock(block)
    ensures Before(block, 12,
      Variables(0xf71fc5a9, 0x4798a3f4, 0x8c87346b, 0x8e04ecb9, 0x816fd6e9, 0x436b23e8, 0x1cc92596, 0x32ca2d8c))
  {
    hide ScheduleWord, Before, IsBlock, Rounds, Round, Add, Wrap, SmallSigma0, SmallSigma1;
    Rounds8(block);
    Words0(block);
    NextRound(block, 8, 0x00000000,
      Variables(0x85a07b5f, 0xe5030380, 0x2b4209f5, 0x04409a6a, 0x0c657a79, 0x9b27a401, 0x714260ad, 0x43ada245),
      0x99ad25c0, 0x79272085, 0xba794dc2, 0xa5020bd5, 0x8e04ecb9, 0x32ca2d8c, 3, 2);
    NextRound(block, 9, 0x00000000,
      Variables(0x8e04ecb9, 0x85a07b5f, 0xe5030380, 0x2b4209f5, 0x32ca2d8c, 0x0c657a79, 0x9b27a401, 0x714260ad),
      0xe45bb7ea, 0x8965a809, 0x15ffad31, 0x85006b99, 0x8c87346b, 0x1cc92596, 2, 2);
    NextRound(block, 10, 0x00000000,
      Variables(0x8c87346b, 0x8e04ecb9, 0x85a07b5f, 0xe5030380, 0x1cc92596, 0x32ca2d8c, 0x0c657a79, 0x9b27a401),
      0x8e2276bc, 0x10ec7fed, 0x5cac0711, 0x8c847c7b, 0x4798a3f4, 0x436b23e8, 2, 2);
    NextRound(block, 11, 0x00000000,
      Variables(0x4798a3f4, 0x8c87346b, 0x8e04ecb9, 0x85a07b5f, 0x436b23e8, 0x1cc92596, 0x32ca2d8c, 0x0c657a79),
      0x699435ca, 0x30c92d84, 0x6ccbc526, 0x8e84a4f9, 0xf71fc5a9, 0x816fd6e9, 1, 1);
  }

  lemma Rounds16(block: seq<Byte>)
    requires |block| == 64 && IsBlock(block)
    ensures Before(block, 16,
      Variables(0xb0fa238e, 0xc0645fde, 0xd932eb16, 0x87912990, 0x07590dcd, 0x0b92f20c, 0x745a48de, 0x1e578218))
  {
    hide ScheduleWord, Before, IsBlock, Rounds, Round, Add, Wrap, SmallSigma0, SmallSigma1;
    Rounds12(block);
    Words0(block);
    NextRound(block, 12, 0x00000000,
      Variables(0xf71fc5a9, 0x4798a3f4, 0x8c87346b, 0x8e04ecb9, 0x816fd6e9, 0x436b23e8, 0x1cc92596, 0x32ca2d8c),
      0xccdee661, 0x1deb23fe, 0x2f9eee48, 0xc79fa5e9, 0x87912990, 0x1e578218, 2, 2);
    NextRound(block, 13, 0x00000000,
      Variables(0x87912990, 0xf71fc5a9, 0x4798a3f4, 0x8c87346b, 0x1e578218, 0x816fd6e9, 0x436b23e8, 0x1cc92596),
      0x08bb98f7, 0x416fa3e8, 0x29c634f3, 0xc799a1b0, 0xd932eb16, 0x745a48de, 1, 1);
    NextRound(block, 14, 0x00000000,
      Variables(0xd932eb16, 0x87912990, 0xf71fc5a9, 0x4798a3f4, 0x745a48de, 0x1e578218, 0x816fd6e9, 0x436b23e8),
      0x4f3b8d50, 0x95779639, 0x25562836, 0xd713e990, 0xc0645fde, 0x0b92f20c, 2, 2);
    NextRound(block, 15, 0x00000018,
      Variables(0xc0645fde, 0xd932eb16, 0x87912990, 0xf71fc5a9, 0x0b92f20c, 0x745a48de, 0x1e578218, 0x816fd6e9),
      0xb8d63f93, 0x1457401c, 0xdf906fd4, 0xc1306b96, 0xb0fa238e, 0x07590dcd, 3, 3);
  }

  lemma Rounds20(block: seq<Byte>)
    requires |block| == 64 && IsBlock(block)
    ensures Before(block, 20,
      Variables(0xe1f20c33, 0xfe777bbf, 0xc2fbd9d1, 0x21da9a9b, 0xb0638179, 0xcc899961, 0x846ee454, 0x8034229c))
  {
    hide ScheduleWord, Before, IsBlock, Rounds, Round, Add, Wrap, SmallSigma0, SmallSigma1;
    Rounds16(block);
    Words16(block);
    NextRound(block, 16, 0x61626380,
      Variables(0xb0fa238e, 0xc0645fde, 0xd932eb16, 0x87912990, 0x07590dcd, 0x0b92f20c, 0x745a48de, 0x1e578218),
      0x213b6995, 0x7312401e, 0x58c535f1, 0xd0726b9e, 0x21da9a9b, 0x8034229c, 3, 2);
    NextRound(block, 17, 0x000f0000,
      Variables(0x21da9a9b, 0xb0fa238e, 0xc0645fde, 0xd932eb16, 0x8034229c, 0x07590dcd, 0x0b92f20c, 0x745a48de),
      0x3b81984e, 0x0b92d08c, 0x76c5c4f5, 0xa0fa1b9e, 0xc2fbd9d1, 0x846ee454, 2, 2);
    NextRound(block, 18, 0x7da86405,
      Variables(0xc2fbd9d1, 0x21da9a9b, 0xb0fa238e, 0xc0645fde, 0x846ee454, 0x8034229c, 0x07590dcd, 0x0b92f20c),
      0xeff31c0f, 0x8335299d, 0x5157a6a1, 0xa0fa9b9b, 0xfe777bbf, 0xcc899961, 2, 2);
    NextRound(block, 19, 0x600003c6,
      Variables(0xfe777bbf, 0xc2fbd9d1, 0x21da9a9b, 0xb0fa238e, 0xcc899961, 0x846ee454, 0x8034229c, 0x07590dcd),
      0xefc707b0, 0x843ca2dc, 0xff8cd2ad, 0xe2fbdb9b, 0xe1f20c33, 0xb0638179, 3, 2);
  }

  lemma Rounds24(block: seq<Byte>)
    requires |block| == 64 && IsBlock(block)
    ensures Before(block, 24,
      Variables(0xc5d53d8d, 0xa7a3623f, 0xc2606d6d, 0x9dc68b63, 0xaa47c347, 0x49f5114a, 0xe1257970, 0x8ada8930))
  {
    hide ScheduleWord, Before, IsBlock, Rounds, Round, Add, Wrap, SmallSigma0, SmallSigma1;
    Rounds20(block);
    Words16(block);
    NextRound(block, 20, 0x3e9d7b78,
      Variables(0xe1f20c33, 0xfe777bbf, 0xc2fbd9d1, 0x21da9a9b, 0xb0638179, 0xcc899961, 0x846ee454, 0x8034229c),
      0xf8373ead, 0x840de565, 0x51d3431b, 0xe2f359b3, 0x9dc68b63, 0x8ada8930, 3, 2);
    NextRound(block, 21, 0x0183fc00,
      Variables(0x9dc68b63, 0xe1f20c33, 0xfe777bbf, 0xc2fbd9d1, 0x8ada8930, 0xb0638179, 0xcc899961, 0x846ee454),
      0x897ea930, 0xc4439171, 0xa640c29b, 0xfdf60b33, 0xc2606d6d, 0xe1257970, 3, 2);
    NextRound(block, 22, 0x12dcbfdb,
      Variables(0xc2606d6d, 0x9dc68b63, 0xe1f20c33, 0xfe777bbf, 0xe1257970, 0x8ada8930, 0xb0638179, 0xcc899961),
      0x7f24093a, 0x90428939, 0x9a43bf51, 0xc1e20d63, 0xa7a3623f, 0x49f5114a, 3, 3);
    NextRound(block, 23, 0xe2e2c38e,
      Variables(0xa7a3623f, 0xc2606d6d, 0x9dc68b63, 0xe1f20c33, 0x49f5114a, 0xe1257970, 0x8ada8930, 0xb0638179),
      0xfae64fc3, 0xc32f9970, 0x759d1b0a, 0x87e26b6f, 0xc5d53d8d, 0xaa47c347, 4, 4);
  }

  lemma Rounds28(block: seq<Byte>)
    requires |block| == 64 && IsBlock(block)
    ensures Before(block, 28,
      Variables(0x77d37528, 0xb62ec4bc, 0xcde8037d, 0x1c2c2838, 0xedffbff8, 0xc74c6516, 0x14383d8e, 0x2823ef91))
  {
    hide ScheduleWord, Before, IsBlock, Rounds, Round, Add, Wrap, SmallSigma0, SmallSigma1;
    Rounds24(block);
    Words24(block);
    NextRound(block, 24, 0xc8215c1a,
      Variables(0xc5d53d8d, 0xa7a3623f, 0xc2606d6d, 0x9dc68b63, 0xaa47c347, 0x49f5114a, 0xe1257970, 0x8ada8930),
      0x55bdf420, 0x49653972, 0xc9ed56dd, 0xc7e16d2d, 0x1c2c2838, 0x2823ef91, 4, 3);
    NextRound(block, 25, 0xb73679a2,
      Variables(0x1c2c2838, 0xc5d53d8d, 0xa7a3623f, 0xc2606d6d, 0x2823ef91, 0xaa47c347, 0x49f5114a, 0xe1257970),
      0xa7724357, 0x69d7d34b, 0xf66b0b1f, 0x85a5283d, 0xcde8037d, 0x14383d8e, 4, 4);
    NextRound(block, 26, 0xe5bc3909,
      Variables(0xcde8037d, 0x1c2c2838, 0xc5d53d8d, 0xa7a3623f, 0x14383d8e, 0x2823ef91, 0xaa47c347, 0x49f5114a),
      0x958ca0fb, 0xaa67efc1, 0xc89998a8, 0xcdec293d, 0xb62ec4bc, 0xc74c6516, 4, 3);
    NextRound(block, 27, 0x32663c5b,
      Variables(0xb62ec4bc, 0xcde8037d, 0x1c2c2838, 0xc5d53d8d, 0xc74c6516, 0x14383d8e, 0x2823ef91, 0xaa47c347),
      0x5ff7537b, 0x2c2baf87, 0xb37cf281, 0x9c2c003c, 0x77d37528, 0xedffbff8, 3, 2);
  }

  lemma Rounds32(block: seq<Byte>)
    requires |block| == 64 && IsBlock(block)
    ensures Before(block, 32,
      Variables(0x73b33bf5, 0xea992a22, 0xa0060b30, 0x363482c9, 0xba591112, 0x0109ab3a, 0xade79437, 0x6112a3b7))
  {
    hide ScheduleWord, Before, IsBlock, Rounds, Round, Add, Wrap, SmallSigma0, SmallSigma1;
    Rounds28(block);
    Words24(block);
    NextRound(block, 28, 0x9d209d67,
      Variables(0x77d37528, 0xb62ec4bc, 0xcde8037d, 0x1c2c2838, 0xedffbff8, 0xc74c6516, 0x14383d8e, 0x2823ef91),
      0xe375bd7e, 0xd54c2516, 0xf963c20e, 0xf7ea453c, 0x363482c9, 0x6112a3b7, 5, 3);
    NextRound(block, 29, 0xec8726cb,
      Variables(0x363482c9, 0x77d37528, 0xb62ec4bc, 0xcde8037d, 0x6112a3b7, 0xedffbff8, 0xc74c6516, 0x14383d8e),
      0x2239b36a, 0xe75ee7b0, 0x89cfb5ce, 0x3636c4a8, 0xa0060b30, 0xade79437, 3, 3);
    NextRound(block, 30, 0x702138a4,
      Variables(0xa0060b30, 0x363482c9, 0x77d37528, 0xb62ec4bc, 0xade79437, 0x6112a3b7, 0xedffbff8, 0xc74c6516),
      0xab883974, 0x611aabff, 0x69a8407c, 0x36160328, 0xea992a22, 0x0109ab3a, 2, 3);
    NextRound(block, 31, 0xd3b7973b,
      Variables(0xea992a22, 0xa0060b30, 0x363482c9, 0x77d37528, 0x0109ab3a, 0xade79437, 0x6112a3b7, 0xedffbff8),
      0x0b919a99, 0x611380b7, 0x8f1995eb, 0xa2140a20, 0x73b33bf5, 0xba591112, 3, 2);
  }

  lemma Rounds36(block: seq<Byte>)
    requires |block| == 64 && IsBlock(block)
    ensures Before(block, 36,
      Variables(0x65a0cfe4, 0xa9a7738c, 0xfe604df5, 0x98e12507, 0xf4b002d6, 0x085f3833, 0x59249dd3, 0x9cd9f5f6))
  {
    hide ScheduleWord, Before, IsBlock, Rounds, Round, Add, Wrap, SmallSigma0, SmallSigma1;
    Rounds32(block);
    Words32(block);
    NextRound(block, 32, 0x93f5997f,
      Variables(0x73b33bf5, 0xea992a22, 0xa0060b30, 0x363482c9, 0xba591112, 0x0109ab3a, 0xade79437, 0x6112a3b7),
      0x4436a63b, 0x05af8537, 0x4fa886aa, 0xe2932b30, 0x98e12507, 0x9cd9f5f6, 2, 1);
    NextRound(block, 33, 0x3b68ba73,
      Variables(0x98e12507, 0x73b33bf5, 0xea992a22, 0xa0060b30, 0x9cd9f5f6, 0xba591112, 0x0109ab3a, 0xade79437),
      0x085a07a7, 0x99591b1a, 0x4a90902b, 0xfab12b27, 0xfe604df5, 0x59249dd3, 2, 2);
    NextRound(block, 34, 0xaff4ffc1,
      Variables(0xfe604df5, 0x98e12507, 0x73b33bf5, 0xea992a22, 0x59249dd3, 0x9cd9f5f6, 0xba591112, 0x0109ab3a),
      0x65415f48, 0xba5995d2, 0x91003786, 0xfae12df5, 0xa9a7738c, 0x085f3833, 3, 3);
    NextRound(block, 35, 0xf10a5c62,
      Variables(0xa9a7738c, 0xfe604df5, 0x98e12507, 0x73b33bf5, 0x085f3833, 0x59249dd3, 0x9cd9f5f6, 0xba591112),
      0xe5dc6e83, 0x9c84ddd7, 0x2bc2a37e, 0xb8e16585, 0x65a0cfe4, 0xf4b002d6, 4, 3);
  }

  lemma Rounds40(block: seq<Byte>)
    requires |block| == 64 && IsBlock(block)
    ensures Before(block, 40,
      Variables(0x79ea687a, 0x6dc57a8a, 0x34df1604, 0x41a65cb1, 0x1efbc0a0, 0xf0781bc8, 0xa507a53d, 0x0772a26b))
  {
    hide ScheduleWord, Before, IsBlock, Rounds, Round, Add, Wrap, SmallSigma0, SmallSigma1;
    Rounds36(block);
    Words32(block);
    NextRound(block, 36, 0x0a8b3996,
      Variables(0x65a0cfe4, 0xa9a7738c, 0xfe604df5, 0x98e12507, 0xf4b002d6, 0x085f3833, 0x59249dd3, 0x9cd9f5f6),
      0x590d3d71, 0x09149d13, 0xe5748f69, 0xeda04fe4, 0x41a65cb1, 0x0772a26b, 3, 2);
    NextRound(block, 37, 0x72af830a,
      Variables(0x41a65cb1, 0x65a0cfe4, 0xa9a7738c, 0xfe604df5, 0x0772a26b, 0xf4b002d6, 0x085f3833, 0x59249dd3),
      0x582c115e, 0x0c3d1a52, 0x2c915f18, 0x61a65fa4, 0x34df1604, 0xa507a53d, 2, 2);
    NextRound(block, 38, 0x9409e33e,
      Variables(0x34df1604, 0x41a65cb1, 0x65a0cfe4, 0xa9a7738c, 0xa507a53d, 0x0772a26b, 0xf4b002d6, 0x085f3833),
      0xd2f220b2, 0x55b2a2eb, 0xc14e73aa, 0x65a65ea4, 0x6dc57a8a, 0xf0781bc8, 3, 2);
    NextRound(block, 39, 0x24641522,
      Variables(0x6dc57a8a, 0x34df1604, 0x41a65cb1, 0x65a0cfe4, 0xf0781bc8, 0xa507a53d, 0x0772a26b, 0xf4b002d6),
      0x66d20b14, 0xa702a12b, 0x5ac8193e, 0x65c75e80, 0x79ea687a, 0x1efbc0a0, 3, 3);
  }

  lemma Rounds44(block: seq<Byte>)
    requires |block| == 64 && IsBlock(block)
    ensures Before(block, 44,
      Variables(0x9d4baf93, 0x17aa0dfe, 0xdf46652f, 0xd6670766, 0xfda24c2e, 0xdecd4715, 0x838b2711, 0x26352d63))
  {
    hide ScheduleWord, Before, IsBlock, Rounds, Round, Add, Wrap, SmallSigma0, SmallSigma1;
    Rounds40(block);
    Words40(block);
    NextRound(block, 40, 0x9f47bf94,
      Variables(0x79ea687a, 0x6dc57a8a, 0x34df1604, 0x41a65cb1, 0x1efbc0a0, 0xf0781bc8, 0xa507a53d, 0x0772a26b),
      0xe9986075, 0xb17c259d, 0x7408bcaa, 0x7dcf7a0a, 0xd6670766, 0x26352d63, 3, 3);
    NextRound(block, 41, 0xf0a64f5a,
      Variables(0xd6670766, 0x79ea687a, 0x6dc57a8a, 0x34df1604, 0x26352d63, 0x1efbc0a0, 0xf0781bc8, 0xa507a53d),
      0x3a6aa383, 0xd67912a8, 0x12b2e9b8, 0x7de76a6a, 0xdf46652f, 0x838b2711, 3, 3);
    NextRound(block, 42, 0x3e246a79,
      Variables(0xdf46652f, 0xd6670766, 0x79ea687a, 0x6dc57a8a, 0x838b2711, 0x26352d63, 0x1efbc0a0, 0xf0781bc8),
      0x61add539, 0x1e71e5a1, 0xc73bdc05, 0xdf66656e, 0x17aa0dfe, 0xdecd4715, 4, 2);
    NextRound(block, 43, 0x27333ba3,
      Variables(0x17aa0dfe, 0xdf46652f, 0xd6670766, 0x79ea687a, 0xdecd4715, 0x838b2711, 0x26352d63, 0x1efbc0a0),
      0xd363665b, 0xa2b92f73, 0x422dc671, 0xd766056e, 0x9d4baf93, 0xfda24c2e, 3, 2);
  }

  lemma Rounds48(block: seq<Byte>)
    requires |block| == 64 && IsBlock(block)
    ensures Before(block, 48,
      Variables(0x4172328d, 0xa14c14b0, 0x72ab4b91, 0x26628815, 0xfecf0bc6, 0xd57b94a9, 0xb7755da1, 0xa80f11f0))
  {
    hide ScheduleWord, Before, IsBlock, Rounds, Round, Add, Wrap, SmallSigma0, SmallSigma1;
    Rounds44(block);
    Words40(block);
    NextRound(block, 44, 0x0c4763f2,
      Variables(0x9d4baf93, 0x17aa0dfe, 0xdf46652f, 0xd6670766, 0xfda24c2e, 0xdecd4715, 0x838b2711, 0x26352d63),
      0xef0f2a07, 0xde896715, 0xb5704fcc, 0x9f4a2dbf, 0x26628815, 0xa80f11f0, 4, 3);
    NextRound(block, 45, 0x840abf27,
      Variables(0x26628815, 0x9d4baf93, 0x17aa0dfe, 0xdf46652f, 0xa80f11f0, 0xfda24c2e, 0xdecd4715, 0x838b2711),
      0xfb3dc5f1, 0xfec24625, 0x8311c588, 0x176a8d97, 0x72ab4b91, 0xb7755da1, 4, 4);
    NextRound(block, 46, 0x7a290d5d,
      Variables(0x72ab4b91, 0x26628815, 0x9d4baf93, 0x17aa0dfe, 0xb7755da1, 0xa80f11f0, 0xfda24c2e, 0xdecd4715),
      0x8845eb06, 0xe88711ae, 0xad0f0274, 0x366b8b91, 0xa14c14b0, 0xd57b94a9, 4, 3);
    NextRound(block, 47, 0x065c43da,
      Variables(0xa14c14b0, 0x72ab4b91, 0x26628815, 0x9d4baf93, 0xd57b94a9, 0xb7755da1, 0xa80f11f0, 0xfda24c2e),
      0x8fa515ca, 0xbd7515f1, 0xbd84cdc9, 0x226a0891, 0x4172328d, 0xfecf0bc6, 3, 2);
  }

  lemma Rounds52(block: seq<Byte>)
    requires |block| == 64 && IsBlock(block)
    ensures Before(block, 52,
      Variables(0x886e7a22, 0x7a0508a1, 0xf11bfaa8, 0x05757ceb, 0x49231c1e, 0x52f1ccf7, 0x6e5c390c, 0xbd714038))
  {
    hide ScheduleWord, Before, IsBlock, Rounds, Round, Add, Wrap, SmallSigma0, SmallSigma1;
    Rounds48(block);
    Words48(block);
    NextRound(block, 48, 0xfb3e89cb,
      Variables(0x4172328d, 0xa14c14b0, 0x72ab4b91, 0x26628815, 0xfecf0bc6, 0xd57b94a9, 0xb7755da1, 0xa80f11f0),
      0x04a106b1, 0xd57b54a1, 0x0cfcb237, 0x616a1291, 0x05757ceb, 0xbd714038, 3, 2);
    NextRound(block, 49, 0xcc7617db,
      Variables(0x05757ceb, 0x4172328d, 0xa14c14b0, 0x72ab4b91, 0xbd714038, 0xfecf0bc6, 0xd57b94a9, 0xb7755da1),
      0x5d427776, 0xfc4b9481, 0xf3f6d884, 0x017434a9, 0xf11bfaa8, 0x6e5c390c, 3, 3);
    NextRound(block, 50, 0xb9e66c34,
      Variables(0xf11bfaa8, 0x05757ceb, 0x4172328d, 0xa14c14b0, 0x6e5c390c, 0xbd714038, 0xfecf0bc6, 0xd57b94a9),
      0x3e283d54, 0xbcd302ca, 0x86ebd5b1, 0x41737aa9, 0x7a0508a1, 0x52f1ccf7, 3, 3);
    NextRound(block, 51, 0xa9993667,
      Variables(0x7a0508a1, 0xf11bfaa8, 0x05757ceb, 0x4172328d, 0x52f1ccf7, 0x6e5c390c, 0xbd714038, 0xfecf0bc6),
      0x3b47e2a3, 0xef50080c, 0x0fa817e8, 0x711578a9, 0x886e7a22, 0x49231c1e, 3, 3);
  }

  lemma Rounds56(block: seq<Byte>)
    requires |block| == 64 && IsBlock(block)
    ensures Before(block, 56,
      Variables(0x38cc9913, 0x3ec45cdb, 0xf5702fdb, 0x101fd28f, 0x54cb266b, 0xe50e1b4f, 0x9f4787c3, 0x529e7d00))
  {
    hide ScheduleWord, Before, IsBlock, Rounds, Round, Add, Wrap, SmallSigma0, SmallSigma1;
    Rounds52(block);
    Words48(block);
    NextRound(block, 52, 0x84badedd,
      Variables(0x886e7a22, 0x7a0508a1, 0xf11bfaa8, 0x05757ceb, 0x49231c1e, 0x52f1ccf7, 0x6e5c390c, 0xbd714038),
      0x6b63a737, 0x667d2d16, 0xcae757da, 0xf80f7aa0, 0x101fd28f, 0x529e7d00, 4, 2);
    NextRound(block, 53, 0xc21462bc,
      Variables(0x101fd28f, 0x886e7a22, 0x7a0508a1, 0xf11bfaa8, 0x529e7d00, 0x49231c1e, 0x52f1ccf7, 0x6e5c390c),
      0xee7eaa12, 0x40639cf7, 0x2f35481d, 0x180f5aa3, 0xf5702fdb, 0x9f4787c3, 2, 3);
    NextRound(block, 54, 0x1487472c,
      Variables(0xf5702fdb, 0x101fd28f, 0x886e7a22, 0x7a0508a1, 0x9f4787c3, 0x529e7d00, 0x49231c1e, 0x52f1ccf7),
      0x55cd1720, 0x52261d1c, 0x433ccfa2, 0x907e7a8b, 0x3ec45cdb, 0xe50e1b4f, 2, 1);
    NextRound(block, 55, 0xb20f7a99,
      Variables(0x3ec45cdb, 0xf5702fdb, 0x101fd28f, 0x886e7a22, 0xe50e1b4f, 0x9f4787c3, 0x529e7d00, 0x49231c1e),
      0xd1653e5c, 0x97966743, 0x381b8def, 0x34545edb, 0x38cc9913, 0x54cb266b, 3, 3);
  }

  lemma Rounds60(block: seq<Byte>)
    requires |block| == 64 && IsBlock(block)
    ensures Before(block, 60,
      Variables(0xb6ae8fff, 0xffb70472, 0xc062d46f, 0xfcd1887b, 0xb21bad3d, 0x6d83bfc6, 0x7e44008e, 0x9b5e906c))
  {
    hide ScheduleWord, Before, IsBlock, Rounds, Round, Add, Wrap, SmallSigma0, SmallSigma1;
    Rounds56(block);
    Words56(block);
    NextRound(block, 56, 0xef57b9cd,
      Variables(0x38cc9913, 0x3ec45cdb, 0xf5702fdb, 0x101fd28f, 0x54cb266b, 0xe50e1b4f, 0x9f4787c3, 0x529e7d00),
      0x05aa8057, 0xcf0e83cb, 0x34ceacc3, 0x3cc41ddb, 0xfcd1887b, 0x9b5e906c, 2, 2);
    NextRound(block, 57, 0xebe6b238,
      Variables(0xfcd1887b, 0x38cc9913, 0x3ec45cdb, 0xf5702fdb, 0x9b5e906c, 0x54cb266b, 0xe50e1b4f, 0x9f4787c3),
      0x10b627de, 0x744a0b6b, 0xfaca6b61, 0x3cc4985b, 0xc062d46f, 0x7e44008e, 3, 3);
    NextRound(block, 58, 0x9fe3095e,
      Variables(0xc062d46f, 0xfcd1887b, 0x38cc9913, 0x3ec45cdb, 0x7e44008e, 0x9b5e906c, 0x54cb266b, 0xe50e1b4f),
      0x0a369fbd, 0x1acf266d, 0xd837090c, 0xf8c0987b, 0xffb70472, 0x6d83bfc6, 3, 2);
    NextRound(block, 59, 0x78bc8d4b,
      Variables(0xffb70472, 0xc062d46f, 0xfcd1887b, 0x38cc9913, 0x6d83bfc6, 0x7e44008e, 0x9b5e906c, 0x54cb266b),
      0x20a45dbe, 0xfe5c00ae, 0x406bf75a, 0xfcf3847b, 0xb6ae8fff, 0xb21bad3d, 3, 2);
  }

  lemma Rounds64(block: seq<Byte>)
    requires |block| == 64 && IsBlock(block)
    ensures Before(block, 64,
      Variables(0x506e3058, 0xd39a2165, 0x04d24d6c, 0xb85e2ce9, 0x5ef50f24, 0xfb121210, 0x948d25b6, 0x961f4894))
  {
    hide ScheduleWord, Before, IsBlock, Rounds, Round, Add, Wrap, SmallSigma0, SmallSigma1;
    Rounds60(block);
    Words56(block);
    NextRound(block, 60, 0xa43fcf15,
      Variables(0xb6ae8fff, 0xffb70472, 0xc062d46f, 0xfcd1887b, 0xb21bad3d, 0x6d83bfc6, 0x7e44008e, 0x9b5e906c),
      0x5ca8b318, 0x6c47ad86, 0x2869e851, 0xf6a6847f, 0xb85e2ce9, 0x961f4894, 3, 3);
    NextRound(block, 61, 0x668b2ff8,
      Variables(0xb85e2ce9, 0xb6ae8fff, 0xffb70472, 0xc062d46f, 0x961f4894, 0xb21bad3d, 0x6d83bfc6, 0x7e44008e),
      0x4f6ef480, 0xfb9bbf56, 0x71e9ef2a, 0xbebe0cfb, 0x04d24d6c, 0x948d25b6, 4, 3);
    NextRound(block, 62, 0xeeaba2cc,
      Variables(0x04d24d6c, 0xb85e2ce9, 0xb6ae8fff, 0xffb70472, 0x948d25b6, 0x961f4894, 0xb21bad3d, 0x6d83bfc6),
      0x2a127e78, 0xb61f889d, 0x236105da, 0xb4de0ded, 0xd39a2165, 0xfb121210, 3, 3);
    NextRound(block, 63, 0x12b1edeb,
      Variables(0xd39a2165, 0x04d24d6c, 0xb85e2ce9, 0xb6ae8fff, 0xfb121210, 0x948d25b6, 0x961f4894, 0xb21bad3d),
      0x88fa2277, 0x940d4894, 0x174d83c6, 0x90da2d6d, 0x506e3058, 0x5ef50f24, 3, 3);
  }

  // ---- The digest -----------------------------------------------------------------------

  lemma AbcDigest()
    ensures Digest(ABC) == ABC_DIGEST
  {
    hide Rounds, ScheduleWord;
    var block := Padded(ABC);
    PaddedIsBlock();
    Rounds64(block);
    assert block[64 * 0..64 * 1] == block;
  }

  lemma HexOfLast(words: seq<Word>, last: Word)
    ensures StateHex(words + [last]) == StateHex(words) + WordHex(last)
  {
    assert (words + [last])[..|words|] == words;
  }

  lemma HexOfByte(b: Byte, high: int, low: int)
    requires 0 <= high < 16 && 0 <= low < 16 && b as int == 16 * high + low
    ensures ByteHex(b) == [HexDigit(high), HexDigit(low)]
  {}

  lemma HexOfWord(words: seq<Word>, w: Word, b0: Byte, b1: Byte, b2: Byte, b3: Byte)
    requires w as int == ((b0 as int * 256 + b1 as int) * 256 + b2 as int) * 256 + b3 as int
    ensures StateHex(words + [w]) == StateHex(words) + (ByteHex(b0) + ByteHex(b1) + ByteHex(b2) + ByteHex(b3))
  {
    hide ByteHex, ByteAt;
    BytesOfSum(w, b0, b1, b2, b3);
    HexOfLast(words, w);
  }

  lemma BytesOfSum(w: Word, b0: Byte, b1: Byte, b2: Byte, b3: Byte)
    requires w as int == ((b0 as int * 256 + b1 as int) * 256 + b2 as int) * 256 + b3 as int
    ensures ByteAt(w, 0) == b0 && ByteAt(w, 1) == b1 && ByteAt(w, 2) == b2 && ByteAt(w, 3) == b3
  {
    assert w as int == b0 as int * 0x100_0000 + (b1 as int * 0x1_0000 + b2 as int * 256 + b3 as int);
    assert w as int == (b0 as int * 256 + b1 as int) * 0x1_0000 + (b2 as int * 256 + b3 as int);
    assert w as int / 0x1_0000 == b0 as int * 256 + b1 as int;
    assert w as int / 0x100 == (b0 as int * 256 + b1 as int) * 256 + b2 as int;
  }

  lemma BytesInHex()
    ensures ByteHex(0xba) == "ba" && ByteHex(0x78) == "78" && ByteHex(0x16) == "16" && ByteHex(0xbf) == "bf"
    ensures ByteHex(0x8f) == "8f" && ByteHex(0x01) == "01" && ByteHex(0xcf) == "cf" && ByteHex(0xea) == "ea"
    ensures ByteHex(0x41) == "41" && ByteHex(0x41) == "41" && ByteHex(0x40) == "40" && ByteHex(0xde) == "de"
    ensures ByteHex(0x5d) == "5d" && ByteHex(0xae) == "ae" && ByteHex(0x22) == "22" && ByteHex(0x23) == "23"
    ensures ByteHex(0xb0) == "b0" && ByteHex(0x03) == "03" && ByteHex(0x61) == "61" && ByteHex(0xa3) == "a3"
    ensures ByteHex(0x96) == "96" && ByteHex(0x17) == "17" && ByteHex(0x7a) == "7a" && ByteHex(0x9c) == "9c"
    ensures ByteHex(0xb4) == "b4" && ByteHex(0x10) == "10" && ByteHex(0xff) == "ff" && ByteHex(0x61) == "61"
    ensures ByteHex(0xf2) == "f2" && ByteHex(0x00) == "00" && ByteHex(0x15) == "15" && ByteHex(0xad) == "ad"
  {
    HexOfByte(0xba, 11, 10);
    HexOfByte(0x78, 7, 8);
    HexOfByte(0x16, 1, 6);
    HexOfByte(0xbf, 11, 15);
    HexOfByte(0x8f, 8, 15);
    HexOfByte(0x01, 0, 1);
    HexOfByte(0xcf, 12, 15);
    HexOfByte(0xea, 14, 10);
    HexOfByte(0x41, 4, 1);
    HexOfByte(0x41, 4, 1);
    HexOfByte(0x40, 4, 0);
    HexOfByte(0xde, 13, 14);
    HexOfByte(0x5d, 5, 13);
    HexOfByte(0xae, 10, 14);
    HexOfByte(0x22, 2, 2);
    HexOfByte(0x23, 2, 3);
    HexOfByte(0xb0, 11, 0);
    HexOfByte(0x03, 0, 3);
    HexOfByte(0x61, 6, 1);
    HexOfByte(0xa3, 10, 3);
    HexOfByte(0x96, 9, 6);
    HexOfByte(0x17, 1, 7);
    HexOfByte(0x7a, 7, 10);
    HexOfByte(0x9c, 9, 12);
    HexOfByte(0xb4, 11, 4);
    HexOfByte(0x10, 1, 0);
    HexOfByte(0xff, 15, 15);
    HexOfByte(0x61, 6, 1);
    HexOfByte(0xf2, 15, 2);
    HexOfByte(0x00, 0, 0);
    HexOfByte(0x15, 1, 5);
    HexOfByte(0xad, 10, 13);
  }

  lemma AbcDigestHex()
    ensures StateHex(ABC_DIGEST) == "ba7816bf" + "8f01cfea" + "414140de" + "5dae2223"
      + "b00361a3" + "96177a9c" + "b410ff61" + "f20015ad"
  {
    hide StateHex, ByteHex;
    NoHex();
    BytesInHex();
    var words: seq<Word> := [];
    HexOfWord(words, 0xba7816bf, 0xba, 0x78, 0x16, 0xbf);
    words := words + [0xba7816bf];
    assert StateHex(words)
      == "ba7816bf";
    HexOfWord(words, 0x8f01cfea, 0x8f, 0x01, 0xcf, 0xea);
    words := words + [0x8f01cfea];
    assert StateHex(words)
      == "ba7816bf" + "8f01cfea";
    HexOfWord(words, 0x414140de, 0x41, 0x41, 0x40, 0xde);
    words := words + [0x414140de];
    assert StateHex(words)
      == "ba7816bf" + "8f01cfea" + "414140de";
    HexOfWord(words, 0x5dae2223, 0x5d, 0xae, 0x22, 0x23);
    words := words + [0x5dae2223];
    assert StateHex(words)
      == "ba7816bf" + "8f01cfea" + "414140de" + "5dae2223";
    HexOfWord(words, 0xb00361a3, 0xb0, 0x03, 0x61, 0xa3);
    words := words + [0xb00361a3];
    assert StateHex(words)
      == "ba7816bf" + "8f01cfea" + "414140de" + "5dae2223" + "b00361a3";
    HexOfWord(words, 0x96177a9c, 0x96, 0x17, 0x7a, 0x9c);
    words := words + [0x96177a9c];
    assert StateHex(words)
      == "ba7816bf" + "8f01cfea" + "414140de" + "5dae2223" + "b00361a3" + "96177a9c";
    HexOfWord(words, 0xb410ff61, 0xb4, 0x10, 0xff, 0x61);
    words := words + [0xb410ff61];
    assert StateHex(words)
      == "ba7816bf" + "8f01cfea" + "414140de" + "5dae2223" + "b00361a3" + "96177a9c" + "b410ff61";
    HexOfWord(words, 0xf20015ad, 0xf2, 0x00, 0x15, 0xad);
    words := words + [0xf20015ad];
    assert StateHex(words)
      == "ba7816bf" + "8f01cfea" + "414140de" + "5dae2223" + "b00361a3" + "96177a9c" + "b410ff61" + "f20015ad";
    assert words == ABC_DIGEST;
  }

  lemma NoHex()
    ensures StateHex([]) == ""
  {}

  /** The program's digest of `abc`, as its printed text. */
  lemma AbcHex()
    ensures StateHex(Digest(ABC)) == "ba7816bf" + "8f01cfea" + "414140de" + "5dae2223"
      + "b00361a3" + "96177a9c" + "b410ff61" + "f20015ad"
  {
    hide Digest;
    AbcDigest();
    AbcDigestHex();
  }
}
