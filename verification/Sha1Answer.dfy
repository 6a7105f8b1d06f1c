/**
 The digest of "abc", the first example of FIPS 180-2 (appendix A.1), and where
 the constants of the rounds come from.
 */
module Sha1Answer {
  import opened Sha1Spec

  /** The constants of section 4.2.1 are the square roots of 2, 3, 5 and 10, times 2 to the 30, without their fractions. */
  lemma {:induction false} ConstantsAreRoots(t: nat)
    requires t < 80
    ensures var k := K(t) as int; var r := if t < 20 then 2 else if t < 40 then 3 else if t < 60 then 5 else 10;
            k * k <= r * 0x1000_0000_0000_0000 < (k + 1) * (k + 1)
  {
    RootOf(t, 0x5a827999, 0x6ed9eba1, 0x8f1bbcdc, 0xca62c1d6);
  }

  lemma {:induction false} RootOf(t: nat, k0: int, k1: int, k2: int, k3: int)
    requires t < 80 && k0 == 0x5a827999 && k1 == 0x6ed9eba1 && k2 == 0x8f1bbcdc && k3 == 0xca62c1d6
    ensures K(t) as int == if t < 20 then k0 else if t < 40 then k1 else if t < 60 then k2 else k3
  {
  }

  const ABC: seq<Byte> := [0x61, 0x62, 0x63]

  // ---- The block ----

  lemma {:induction false} AbcLength()
    ensures BitLength(3) == 24 && ZeroCount(3) == 52
  {
  }

  lemma {:induction false} AbcLengthBytes()
    ensures LengthBytes(24) == [0, 0, 0, 0, 0, 0, 0, 24]
  {
  }

  lemma {:induction false} AbcPadded()
    ensures |Padded(ABC)| == 64 && forall i :: 0 <= i < 64 ==> Padded(ABC)[i] == if i < 3 then ABC[i] else if i == 3 then 0x80 else if i == 63 then 24 else 0
  {
    hide LengthBytes; hide BitLength; hide ZeroCount;
    AbcLength();
    AbcLengthBytes();
  }

  lemma {:induction false} WordLiterals()
    ensures WordOf(0x61, 0x62, 0x63, 0x80) == 0x61626380 && WordOf(0, 0, 0, 0) == 0 && WordOf(0, 0, 0, 24) == 0x18
  {
  }

  lemma {:induction false} AbcBlock()
    ensures |Padded(ABC)| == 64
    ensures var w := WordsOf(Padded(ABC)); forall k :: 0 <= k < 16 ==> w[k] == if k == 0 then 0x61626380 else if k == 15 then 0x18 else 0
  {
    hide WordOf; hide Padded;
    AbcPadded();
    WordLiterals();
  }

  // ---- The schedule ----

  lemma {:induction false} ScheduleAt(block: seq<Word>, n: nat, t: nat)
    requires |block| == 16 && 16 <= n && t < n
    ensures var w := Schedule(block, n); w[t] == if t < 16 then block[t] else Rotate1(Mix(w[t - 3], w[t - 8], w[t - 14], w[t - 16]))
    decreases n
  {
    hide Rotate1; hide Mix;
    if n > 16 && t < n - 1 { ScheduleAt(block, n - 1, t); }
  }

  ghost predicate NextAt(w: seq<Word>, t: nat)
    requires 16 <= t < |w|
  {
    w[t] == Rotate1(Mix(w[t - 3], w[t - 8], w[t - 14], w[t - 16]))
  }

  ghost predicate IsSchedule(w: seq<Word>)
    requires |w| == 80
  {
    forall t :: 16 <= t < 80 ==> NextAt(w, t)
  }

  lemma {:induction false} ScheduleIs(block: seq<Word>)
    requires |block| == 16
    ensures IsSchedule(Schedule(block, 80)) && forall t :: 0 <= t < 16 ==> Schedule(block, 80)[t] == block[t]
  {
    hide Rotate1; hide Mix; hide Schedule; hide NextAt;
    var w := Schedule(block, 80);
    forall t | 16 <= t < 80 ensures NextAt(w, t) { NextIs(block, t); }
    forall t | 0 <= t < 16 ensures w[t] == block[t] { ScheduleAt(block, 80, t); }
  }

  lemma {:induction false} NextIs(block: seq<Word>, t: nat)
    requires |block| == 16 && 16 <= t < 80
    ensures NextAt(Schedule(block, 80), t)
  {
    hide Rotate1; hide Mix; hide Schedule;
    ScheduleAt(block, 80, t);
  }

  lemma {:induction false} WordAt(w: seq<Word>, t: nat, x3: Word, x8: Word, x14: Word, x16: Word, x: Word)
    requires |w| == 80 && IsSchedule(w) && 16 <= t < 80 && w[t - 3] == x3 && w[t - 8] == x8 && w[t - 14] == x14 && w[t - 16] == x16
    requires Rotate1(Mix(x3, x8, x14, x16)) == x
    ensures w[t] == x
  {
    hide Rotate1; hide Mix;
    assert NextAt(w, t);
  }

  lemma {:induction false} AbcWords16(w: seq<Word>)
    requires |w| == 80 && IsSchedule(w)
    requires w[0] == 0x61626380 && w[1] == 0x00000000 && w[2] == 0x00000000 && w[3] == 0x00000000 && w[4] == 0x00000000
    requires w[5] == 0x00000000 && w[6] == 0x00000000 && w[7] == 0x00000000 && w[8] == 0x00000000 && w[9] == 0x00000000
    requires w[10] == 0x00000000 && w[11] == 0x00000000 && w[12] == 0x00000000 && w[13] == 0x00000000 && w[14] == 0x00000000
    requires w[15] == 0x00000018
    ensures w[16] == 0xc2c4c700 && w[17] == 0x00000000 && w[18] == 0x00000030 && w[19] == 0x85898e01 && w[20] == 0x00000000
    ensures w[21] == 0x00000060 && w[22] == 0x0b131c03 && w[23] == 0x00000030 && w[24] == 0x85898ec1 && w[25] == 0x16263806
    ensures w[26] == 0x00000000 && w[27] == 0x00000180 && w[28] == 0x2c4c700c && w[29] == 0x000000f0 && w[30] == 0x93afb507
    ensures w[31] == 0x5898e048
  {
    hide IsSchedule;
    WordAt(w, 16, 0x00000000, 0x00000000, 0x00000000, 0x61626380, 0xc2c4c700);
    WordAt(w, 17, 0x00000000, 0x00000000, 0x00000000, 0x00000000, 0x00000000);
    WordAt(w, 18, 0x00000018, 0x00000000, 0x00000000, 0x00000000, 0x00000030);
    WordAt(w, 19, 0xc2c4c700, 0x00000000, 0x00000000, 0x00000000, 0x85898e01);
    WordAt(w, 20, 0x00000000, 0x00000000, 0x00000000, 0x00000000, 0x00000000);
    WordAt(w, 21, 0x00000030, 0x00000000, 0x00000000, 0x00000000, 0x00000060);
    WordAt(w, 22, 0x85898e01, 0x00000000, 0x00000000, 0x00000000, 0x0b131c03);
    WordAt(w, 23, 0x00000000, 0x00000018, 0x00000000, 0x00000000, 0x00000030);
    WordAt(w, 24, 0x00000060, 0xc2c4c700, 0x00000000, 0x00000000, 0x85898ec1);
    WordAt(w, 25, 0x0b131c03, 0x00000000, 0x00000000, 0x00000000, 0x16263806);
    WordAt(w, 26, 0x00000030, 0x00000030, 0x00000000, 0x00000000, 0x00000000);
    WordAt(w, 27, 0x85898ec1, 0x85898e01, 0x00000000, 0x00000000, 0x00000180);
    WordAt(w, 28, 0x16263806, 0x00000000, 0x00000000, 0x00000000, 0x2c4c700c);
    WordAt(w, 29, 0x00000000, 0x00000060, 0x00000018, 0x00000000, 0x000000f0);
    WordAt(w, 30, 0x00000180, 0x0b131c03, 0xc2c4c700, 0x00000000, 0x93afb507);
    WordAt(w, 31, 0x2c4c700c, 0x00000030, 0x00000000, 0x00000018, 0x5898e048);
  }

  lemma {:induction false} AbcWords32(w: seq<Word>)
    requires |w| == 80 && IsSchedule(w)
    requires w[16] == 0xc2c4c700 && w[17] == 0x00000000 && w[18] == 0x00000030 && w[19] == 0x85898e01 && w[20] == 0x00000000
    requires w[21] == 0x00000060 && w[22] == 0x0b131c03 && w[23] == 0x00000030 && w[24] == 0x85898ec1 && w[25] == 0x16263806
    requires w[26] == 0x00000000 && w[27] == 0x00000180 && w[28] == 0x2c4c700c && w[29] == 0x000000f0 && w[30] == 0x93afb507
    requires w[31] == 0x5898e048
    ensures w[32] == 0x8e9a9202 && w[33] == 0x00000600 && w[34] == 0xb131c0f0 && w[35] == 0x16263bc6 && w[36] == 0x4ebed41e
    ensures w[37] == 0x626380a1 && w[38] == 0x16263806 && w[39] == 0x000018c0 && w[40] == 0xd2e138c4 && w[41] == 0x00000f00
    ensures w[42] == 0x3afb5079 && w[43] == 0x898e04e5 && w[44] == 0xe2ba3c2b && w[45] == 0x000060c0 && w[46] == 0x053a37cd
    ensures w[47] == 0x74458547
  {
    hide IsSchedule;
    WordAt(w, 32, 0x000000f0, 0x85898ec1, 0x00000030, 0xc2c4c700, 0x8e9a9202);
    WordAt(w, 33, 0x93afb507, 0x16263806, 0x85898e01, 0x00000000, 0x00000600);
    WordAt(w, 34, 0x5898e048, 0x00000000, 0x00000000, 0x00000030, 0xb131c0f0);
    WordAt(w, 35, 0x8e9a9202, 0x00000180, 0x00000060, 0x85898e01, 0x16263bc6);
    WordAt(w, 36, 0x00000600, 0x2c4c700c, 0x0b131c03, 0x00000000, 0x4ebed41e);
    WordAt(w, 37, 0xb131c0f0, 0x000000f0, 0x00000030, 0x00000060, 0x626380a1);
    WordAt(w, 38, 0x16263bc6, 0x93afb507, 0x85898ec1, 0x0b131c03, 0x16263806);
    WordAt(w, 39, 0x4ebed41e, 0x5898e048, 0x16263806, 0x00000030, 0x000018c0);
    WordAt(w, 40, 0x626380a1, 0x8e9a9202, 0x00000000, 0x85898ec1, 0xd2e138c4);
    WordAt(w, 41, 0x16263806, 0x00000600, 0x00000180, 0x16263806, 0x00000f00);
    WordAt(w, 42, 0x000018c0, 0xb131c0f0, 0x2c4c700c, 0x00000000, 0x3afb5079);
    WordAt(w, 43, 0xd2e138c4, 0x16263bc6, 0x000000f0, 0x00000180, 0x898e04e5);
    WordAt(w, 44, 0x00000f00, 0x4ebed41e, 0x93afb507, 0x2c4c700c, 0xe2ba3c2b);
    WordAt(w, 45, 0x3afb5079, 0x626380a1, 0x5898e048, 0x000000f0, 0x000060c0);
    WordAt(w, 46, 0x898e04e5, 0x16263806, 0x8e9a9202, 0x93afb507, 0x053a37cd);
    WordAt(w, 47, 0xe2ba3c2b, 0x000018c0, 0x00000600, 0x5898e048, 0x74458547);
  }

  lemma {:induction false} AbcWords48(w: seq<Word>)
    requires |w| == 80 && IsSchedule(w)
    requires w[32] == 0x8e9a9202 && w[33] == 0x00000600 && w[34] == 0xb131c0f0 && w[35] == 0x16263bc6 && w[36] == 0x4ebed41e
    requires w[37] == 0x626380a1 && w[38] == 0x16263806 && w[39] == 0x000018c0 && w[40] == 0xd2e138c4 && w[41] == 0x00000f00
    requires w[42] == 0x3afb5079 && w[43] == 0x898e04e5 && w[44] == 0xe2ba3c2b && w[45] == 0x000060c0 && w[46] == 0x053a37cd
    requires w[47] == 0x74458547
    ensures w[48] == 0xda9415ed && w[49] == 0x26380a16 && w[50] == 0x626383a1 && w[51] == 0x4ebf54de && w[52] == 0x3835b44b
    ensures w[53] == 0x0000f600 && w[54] == 0x1e84c7a3 && w[55] == 0x98e04d98 && w[56] == 0x651d16a0 && w[57] == 0x62658ca1
    ensures w[58] == 0x458544d6 && w[59] == 0x44584cb7 && w[60] == 0x7ba06619 && w[61] == 0x6380aea2 && w[62] == 0x0ae55269
    ensures w[63] == 0x627b49a1
  {
    hide IsSchedule;
    WordAt(w, 48, 0x000060c0, 0xd2e138c4, 0xb131c0f0, 0x8e9a9202, 0xda9415ed);
    WordAt(w, 49, 0x053a37cd, 0x00000f00, 0x16263bc6, 0x00000600, 0x26380a16);
    WordAt(w, 50, 0x74458547, 0x3afb5079, 0x4ebed41e, 0xb131c0f0, 0x626383a1);
    WordAt(w, 51, 0xda9415ed, 0x898e04e5, 0x626380a1, 0x16263bc6, 0x4ebf54de);
    WordAt(w, 52, 0x26380a16, 0xe2ba3c2b, 0x16263806, 0x4ebed41e, 0x3835b44b);
    WordAt(w, 53, 0x626383a1, 0x000060c0, 0x000018c0, 0x626380a1, 0x0000f600);
    WordAt(w, 54, 0x4ebf54de, 0x053a37cd, 0xd2e138c4, 0x16263806, 0x1e84c7a3);
    WordAt(w, 55, 0x3835b44b, 0x74458547, 0x00000f00, 0x000018c0, 0x98e04d98);
    WordAt(w, 56, 0x0000f600, 0xda9415ed, 0x3afb5079, 0xd2e138c4, 0x651d16a0);
    WordAt(w, 57, 0x1e84c7a3, 0x26380a16, 0x898e04e5, 0x00000f00, 0x62658ca1);
    WordAt(w, 58, 0x98e04d98, 0x626383a1, 0xe2ba3c2b, 0x3afb5079, 0x458544d6);
    WordAt(w, 59, 0x651d16a0, 0x4ebf54de, 0x000060c0, 0x898e04e5, 0x44584cb7);
    WordAt(w, 60, 0x62658ca1, 0x3835b44b, 0x053a37cd, 0xe2ba3c2b, 0x7ba06619);
    WordAt(w, 61, 0x458544d6, 0x0000f600, 0x74458547, 0x000060c0, 0x6380aea2);
    WordAt(w, 62, 0x44584cb7, 0x1e84c7a3, 0xda9415ed, 0x053a37cd, 0x0ae55269);
    WordAt(w, 63, 0x7ba06619, 0x98e04d98, 0x26380a16, 0x74458547, 0x627b49a1);
  }

  lemma {:induction false} AbcWords64(w: seq<Word>)
    requires |w| == 80 && IsSchedule(w)
    requires w[48] == 0xda9415ed && w[49] == 0x26380a16 && w[50] == 0x626383a1 && w[51] == 0x4ebf54de && w[52] == 0x3835b44b
    requires w[53] == 0x0000f600 && w[54] == 0x1e84c7a3 && w[55] == 0x98e04d98 && w[56] == 0x651d16a0 && w[57] == 0x62658ca1
    requires w[58] == 0x458544d6 && w[59] == 0x44584cb7 && w[60] == 0x7ba06619 && w[61] == 0x6380aea2 && w[62] == 0x0ae55269
    requires w[63] == 0x627b49a1
    ensures w[64] == 0x7cd45c9d && w[65] == 0x000f0000 && w[66] == 0xfb50753a && w[67] == 0xec6765e8 && w[68] == 0xba3c2be2
    ensures w[69] == 0x0060c000 && w[70] == 0x3a37cd05 && w[71] == 0x458546f4 && w[72] == 0xb8599dd6 && w[73] == 0x380a1a26
    ensures w[74] == 0x01e02203 && w[75] == 0xe7cc3456 && w[76] == 0xe6e60b69 && w[77] == 0x00f60a00 && w[78] == 0x5795ef4f
    ensures w[79] == 0x822e0879
  {
    hide IsSchedule;
    WordAt(w, 64, 0x6380aea2, 0x651d16a0, 0x626383a1, 0xda9415ed, 0x7cd45c9d);
    WordAt(w, 65, 0x0ae55269, 0x62658ca1, 0x4ebf54de, 0x26380a16, 0x000f0000);
    WordAt(w, 66, 0x627b49a1, 0x458544d6, 0x3835b44b, 0x626383a1, 0xfb50753a);
    WordAt(w, 67, 0x7cd45c9d, 0x44584cb7, 0x0000f600, 0x4ebf54de, 0xec6765e8);
    WordAt(w, 68, 0x000f0000, 0x7ba06619, 0x1e84c7a3, 0x3835b44b, 0xba3c2be2);
    WordAt(w, 69, 0xfb50753a, 0x6380aea2, 0x98e04d98, 0x0000f600, 0x0060c000);
    WordAt(w, 70, 0xec6765e8, 0x0ae55269, 0x651d16a0, 0x1e84c7a3, 0x3a37cd05);
    WordAt(w, 71, 0xba3c2be2, 0x627b49a1, 0x62658ca1, 0x98e04d98, 0x458546f4);
    WordAt(w, 72, 0x0060c000, 0x7cd45c9d, 0x458544d6, 0x651d16a0, 0xb8599dd6);
    WordAt(w, 73, 0x3a37cd05, 0x000f0000, 0x44584cb7, 0x62658ca1, 0x380a1a26);
    WordAt(w, 74, 0x458546f4, 0xfb50753a, 0x7ba06619, 0x458544d6, 0x01e02203);
    WordAt(w, 75, 0xb8599dd6, 0xec6765e8, 0x6380aea2, 0x44584cb7, 0xe7cc3456);
    WordAt(w, 76, 0x380a1a26, 0xba3c2be2, 0x0ae55269, 0x7ba06619, 0xe6e60b69);
    WordAt(w, 77, 0x01e02203, 0x0060c000, 0x627b49a1, 0x6380aea2, 0x00f60a00);
    WordAt(w, 78, 0xe7cc3456, 0x3a37cd05, 0x7cd45c9d, 0x0ae55269, 0x5795ef4f);
    WordAt(w, 79, 0xe6e60b69, 0x458546f4, 0x000f0000, 0x627b49a1, 0x822e0879);
  }

  // ---- The rounds ----

  lemma {:induction false} RoundAt(w: seq<Word>, t: nat, a: Word, b: Word, c: Word, d: Word, e: Word, x: Word, a': Word, c': Word)
    requires t < |w| && Rounds(INITIAL, w, t) == State(a, b, c, d, e) && w[t] == x
    requires Sum(Rotate5(a), F(t, b, c, d), e, K(t), x) == a' && Rotate30(b) == c'
    ensures Rounds(INITIAL, w, t + 1) == State(a', a, c', c, d)
  {
    hide Sum; hide Rotate5; hide F; hide K; hide Rotate30;
  }

  lemma {:induction false} AbcRounds0(w: seq<Word>)
    requires |w| == 80 && Rounds(INITIAL, w, 0) == State(0x67452301, 0xefcdab89, 0x98badcfe, 0x10325476, 0xc3d2e1f0)
    requires w[0] == 0x61626380 && w[1] == 0x00000000 && w[2] == 0x00000000 && w[3] == 0x00000000 && w[4] == 0x00000000
    requires w[5] == 0x00000000 && w[6] == 0x00000000 && w[7] == 0x00000000 && w[8] == 0x00000000 && w[9] == 0x00000000
    ensures Rounds(INITIAL, w, 10) == State(0x8351f929, 0x4b6ae328, 0x27a301f5, 0x664f8c30, 0x0ff1f290)
  {
    hide Rounds; hide INITIAL;
    RoundAt(w, 0, 0x67452301, 0xefcdab89, 0x98badcfe, 0x10325476, 0xc3d2e1f0, 0x61626380, 0x0116fc33, 0x7bf36ae2);
    RoundAt(w, 1, 0x0116fc33, 0x67452301, 0x7bf36ae2, 0x98badcfe, 0x10325476, 0x00000000, 0x8990536d, 0x59d148c0);
    RoundAt(w, 2, 0x8990536d, 0x0116fc33, 0x59d148c0, 0x7bf36ae2, 0x98badcfe, 0x00000000, 0xa1390f08, 0xc045bf0c);
    RoundAt(w, 3, 0xa1390f08, 0x8990536d, 0xc045bf0c, 0x59d148c0, 0x7bf36ae2, 0x00000000, 0xcdd8e11b, 0x626414db);
    RoundAt(w, 4, 0xcdd8e11b, 0xa1390f08, 0x626414db, 0xc045bf0c, 0x59d148c0, 0x00000000, 0xcfd499de, 0x284e43c2);
    RoundAt(w, 5, 0xcfd499de, 0xcdd8e11b, 0x284e43c2, 0x626414db, 0xc045bf0c, 0x00000000, 0x3fc7ca40, 0xf3763846);
    RoundAt(w, 6, 0x3fc7ca40, 0xcfd499de, 0xf3763846, 0x284e43c2, 0x626414db, 0x00000000, 0x993e30c1, 0xb3f52677);
    RoundAt(w, 7, 0x993e30c1, 0x3fc7ca40, 0xb3f52677, 0xf3763846, 0x284e43c2, 0x00000000, 0x9e8c07d4, 0x0ff1f290);
    RoundAt(w, 8, 0x9e8c07d4, 0x993e30c1, 0x0ff1f290, 0xb3f52677, 0xf3763846, 0x00000000, 0x4b6ae328, 0x664f8c30);
    RoundAt(w, 9, 0x4b6ae328, 0x9e8c07d4, 0x664f8c30, 0x0ff1f290, 0xb3f52677, 0x00000000, 0x8351f929, 0x27a301f5);
  }

  lemma {:induction false} AbcRounds10(w: seq<Word>)
    requires |w| == 80 && Rounds(INITIAL, w, 10) == State(0x8351f929, 0x4b6ae328, 0x27a301f5, 0x664f8c30, 0x0ff1f290)
    requires w[10] == 0x00000000 && w[11] == 0x00000000 && w[12] == 0x00000000 && w[13] == 0x00000000 && w[14] == 0x00000000
    requires w[15] == 0x00000018 && w[16] == 0xc2c4c700 && w[17] == 0x00000000 && w[18] == 0x00000030 && w[19] == 0x85898e01
    ensures Rounds(INITIAL, w, 20) == State(0xfd9e1d7d, 0xdc64901d, 0x20aa99ca, 0xd3a49608, 0xc82f758b)
  {
    hide Rounds; hide INITIAL;
    RoundAt(w, 10, 0x8351f929, 0x4b6ae328, 0x27a301f5, 0x664f8c30, 0x0ff1f290, 0x00000000, 0xfbda9e89, 0x12dab8ca);
    RoundAt(w, 11, 0xfbda9e89, 0x8351f929, 0x12dab8ca, 0x27a301f5, 0x664f8c30, 0x00000000, 0x63188fe4, 0x60d47e4a);
    RoundAt(w, 12, 0x63188fe4, 0xfbda9e89, 0x60d47e4a, 0x12dab8ca, 0x27a301f5, 0x00000000, 0x4607b664, 0x7ef6a7a2);
    RoundAt(w, 13, 0x4607b664, 0x63188fe4, 0x7ef6a7a2, 0x60d47e4a, 0x12dab8ca, 0x00000000, 0x9128f695, 0x18c623f9);
    RoundAt(w, 14, 0x9128f695, 0x4607b664, 0x18c623f9, 0x7ef6a7a2, 0x60d47e4a, 0x00000000, 0x196bee77, 0x1181ed99);
    RoundAt(w, 15, 0x196bee77, 0x9128f695, 0x1181ed99, 0x18c623f9, 0x7ef6a7a2, 0x00000018, 0x20bdd62f, 0x644a3da5);
    RoundAt(w, 16, 0x20bdd62f, 0x196bee77, 0x644a3da5, 0x1181ed99, 0x18c623f9, 0xc2c4c700, 0x4e925823, 0xc65afb9d);
    RoundAt(w, 17, 0x4e925823, 0x20bdd62f, 0xc65afb9d, 0x644a3da5, 0x1181ed99, 0x00000000, 0x82aa6728, 0xc82f758b);
    RoundAt(w, 18, 0x82aa6728, 0x4e925823, 0xc82f758b, 0xc65afb9d, 0x644a3da5, 0x00000030, 0xdc64901d, 0xd3a49608);
    RoundAt(w, 19, 0xdc64901d, 0x82aa6728, 0xd3a49608, 0xc82f758b, 0xc65afb9d, 0x85898e01, 0xfd9e1d7d, 0x20aa99ca);
  }

  lemma {:induction false} AbcRounds20(w: seq<Word>)
    requires |w| == 80 && Rounds(INITIAL, w, 20) == State(0xfd9e1d7d, 0xdc64901d, 0x20aa99ca, 0xd3a49608, 0xc82f758b)
    requires w[20] == 0x00000000 && w[21] == 0x00000060 && w[22] == 0x0b131c03 && w[23] == 0x00000030 && w[24] == 0x85898ec1
    requires w[25] == 0x16263806 && w[26] == 0x00000000 && w[27] == 0x00000180 && w[28] == 0x2c4c700c && w[29] == 0x000000f0
    ensures Rounds(INITIAL, w, 30) == State(0xc5fbaf5d, 0x8370b52e, 0xd2aa1365, 0x6f8d7ef5, 0x12104ee9)
  {
    hide Rounds; hide INITIAL;
    RoundAt(w, 20, 0xfd9e1d7d, 0xdc64901d, 0x20aa99ca, 0xd3a49608, 0xc82f758b, 0x00000000, 0x1a37b0ca, 0x77192407);
    RoundAt(w, 21, 0x1a37b0ca, 0xfd9e1d7d, 0x77192407, 0x20aa99ca, 0xd3a49608, 0x00000060, 0x33a23bfc, 0x7f67875f);
    RoundAt(w, 22, 0x33a23bfc, 0x1a37b0ca, 0x7f67875f, 0x77192407, 0x20aa99ca, 0x0b131c03, 0x21283486, 0x868dec32);
    RoundAt(w, 23, 0x21283486, 0x33a23bfc, 0x868dec32, 0x7f67875f, 0x77192407, 0x00000030, 0xd541f12d, 0x0ce88eff);
    RoundAt(w, 24, 0xd541f12d, 0x21283486, 0x0ce88eff, 0x868dec32, 0x7f67875f, 0x85898ec1, 0xc7567dc6, 0x884a0d21);
    RoundAt(w, 25, 0xc7567dc6, 0xd541f12d, 0x884a0d21, 0x0ce88eff, 0x868dec32, 0x16263806, 0x48413ba4, 0x75507c4b);
    RoundAt(w, 26, 0x48413ba4, 0xc7567dc6, 0x75507c4b, 0x884a0d21, 0x0ce88eff, 0x00000000, 0xbe35fbd5, 0xb1d59f71);
    RoundAt(w, 27, 0xbe35fbd5, 0x48413ba4, 0xb1d59f71, 0x75507c4b, 0x884a0d21, 0x00000180, 0x4aa84d97, 0x12104ee9);
    RoundAt(w, 28, 0x4aa84d97, 0xbe35fbd5, 0x12104ee9, 0xb1d59f71, 0x75507c4b, 0x2c4c700c, 0x8370b52e, 0x6f8d7ef5);
    RoundAt(w, 29, 0x8370b52e, 0x4aa84d97, 0x6f8d7ef5, 0x12104ee9, 0xb1d59f71, 0x000000f0, 0xc5fbaf5d, 0xd2aa1365);
  }

  lemma {:induction false} AbcRounds30(w: seq<Word>)
    requires |w| == 80 && Rounds(INITIAL, w, 30) == State(0xc5fbaf5d, 0x8370b52e, 0xd2aa1365, 0x6f8d7ef5, 0x12104ee9)
    requires w[30] == 0x93afb507 && w[31] == 0x5898e048 && w[32] == 0x8e9a9202 && w[33] == 0x00000600 && w[34] == 0xb131c0f0
    requires w[35] == 0x16263bc6 && w[36] == 0x4ebed41e && w[37] == 0x626380a1 && w[38] == 0x16263806 && w[39] == 0x000018c0
    ensures Rounds(INITIAL, w, 40) == State(0x32de1cba, 0x4c986405, 0xf718e5cf, 0x03d447f6, 0xf72eec32)
  {
    hide Rounds; hide INITIAL;
    RoundAt(w, 30, 0xc5fbaf5d, 0x8370b52e, 0xd2aa1365, 0x6f8d7ef5, 0x12104ee9, 0x93afb507, 0x1267b407, 0xa0dc2d4b);
    RoundAt(w, 31, 0x1267b407, 0xc5fbaf5d, 0xa0dc2d4b, 0xd2aa1365, 0x6f8d7ef5, 0x5898e048, 0x3b845d33, 0x717eebd7);
    RoundAt(w, 32, 0x3b845d33, 0x1267b407, 0x717eebd7, 0xa0dc2d4b, 0xd2aa1365, 0x8e9a9202, 0x046faa0a, 0xc499ed01);
    RoundAt(w, 33, 0x046faa0a, 0x3b845d33, 0xc499ed01, 0x717eebd7, 0xa0dc2d4b, 0x00000600, 0x2c0ebc11, 0xcee1174c);
    RoundAt(w, 34, 0x2c0ebc11, 0x046faa0a, 0xcee1174c, 0xc499ed01, 0x717eebd7, 0xb131c0f0, 0x21796ad4, 0x811bea82);
    RoundAt(w, 35, 0x21796ad4, 0x2c0ebc11, 0x811bea82, 0xcee1174c, 0xc499ed01, 0x16263bc6, 0xdcbbb0cb, 0x4b03af04);
    RoundAt(w, 36, 0xdcbbb0cb, 0x21796ad4, 0x4b03af04, 0x811bea82, 0xcee1174c, 0x4ebed41e, 0x0f511fd8, 0x085e5ab5);
    RoundAt(w, 37, 0x0f511fd8, 0xdcbbb0cb, 0x085e5ab5, 0x4b03af04, 0x811bea82, 0x626380a1, 0xdc63973f, 0xf72eec32);
    RoundAt(w, 38, 0xdc63973f, 0x0f511fd8, 0xf72eec32, 0x085e5ab5, 0x4b03af04, 0x16263806, 0x4c986405, 0x03d447f6);
    RoundAt(w, 39, 0x4c986405, 0xdc63973f, 0x03d447f6, 0xf72eec32, 0x085e5ab5, 0x000018c0, 0x32de1cba, 0xf718e5cf);
  }

  lemma {:induction false} AbcRounds40(w: seq<Word>)
    requires |w| == 80 && Rounds(INITIAL, w, 40) == State(0x32de1cba, 0x4c986405, 0xf718e5cf, 0x03d447f6, 0xf72eec32)
    requires w[40] == 0xd2e138c4 && w[41] == 0x00000f00 && w[42] == 0x3afb5079 && w[43] == 0x898e04e5 && w[44] == 0xe2ba3c2b
    requires w[45] == 0x000060c0 && w[46] == 0x053a37cd && w[47] == 0x74458547 && w[48] == 0xda9415ed && w[49] == 0x26380a16
    ensures Rounds(INITIAL, w, 50) == State(0x120731c5, 0xbaf39337, 0xafab40b2, 0x2806e11b, 0x8714787c)
  {
    hide Rounds; hide INITIAL;
    RoundAt(w, 40, 0x32de1cba, 0x4c986405, 0xf718e5cf, 0x03d447f6, 0xf72eec32, 0xd2e138c4, 0xfc87dedf, 0x53261901);
    RoundAt(w, 41, 0xfc87dedf, 0x32de1cba, 0x53261901, 0xf718e5cf, 0x03d447f6, 0x00000f00, 0x970a0d5c, 0x8cb7872e);
    RoundAt(w, 42, 0x970a0d5c, 0xfc87dedf, 0x8cb7872e, 0x53261901, 0xf718e5cf, 0x3afb5079, 0x7f193dc5, 0xff21f7b7);
    RoundAt(w, 43, 0x7f193dc5, 0x970a0d5c, 0xff21f7b7, 0x8cb7872e, 0x53261901, 0x898e04e5, 0xee1b1aaf, 0x25c28357);
    RoundAt(w, 44, 0xee1b1aaf, 0x7f193dc5, 0x25c28357, 0xff21f7b7, 0x8cb7872e, 0xe2ba3c2b, 0x40f28e09, 0x5fc64f71);
    RoundAt(w, 45, 0x40f28e09, 0xee1b1aaf, 0x5fc64f71, 0x25c28357, 0xff21f7b7, 0x000060c0, 0x1c51e1f2, 0xfb86c6ab);
    RoundAt(w, 46, 0x1c51e1f2, 0x40f28e09, 0xfb86c6ab, 0x5fc64f71, 0x25c28357, 0x053a37cd, 0xa01b846c, 0x503ca382);
    RoundAt(w, 47, 0xa01b846c, 0x1c51e1f2, 0x503ca382, 0xfb86c6ab, 0x5fc64f71, 0x74458547, 0xbead02ca, 0x8714787c);
    RoundAt(w, 48, 0xbead02ca, 0xa01b846c, 0x8714787c, 0x503ca382, 0xfb86c6ab, 0xda9415ed, 0xbaf39337, 0x2806e11b);
    RoundAt(w, 49, 0xbaf39337, 0xbead02ca, 0x2806e11b, 0x8714787c, 0x503ca382, 0x26380a16, 0x120731c5, 0xafab40b2);
  }

  lemma {:induction false} AbcRounds50(w: seq<Word>)
    requires |w| == 80 && Rounds(INITIAL, w, 50) == State(0x120731c5, 0xbaf39337, 0xafab40b2, 0x2806e11b, 0x8714787c)
    requires w[50] == 0x626383a1 && w[51] == 0x4ebf54de && w[52] == 0x3835b44b && w[53] == 0x0000f600 && w[54] == 0x1e84c7a3
    requires w[55] == 0x98e04d98 && w[56] == 0x651d16a0 && w[57] == 0x62658ca1 && w[58] == 0x458544d6 && w[59] == 0x44584cb7
    ensures Rounds(INITIAL, w, 60) == State(0x3f52de5a, 0x09d785fd, 0x3498bfd4, 0xf211824f, 0xd79915ab)
  {
    hide Rounds; hide INITIAL;
    RoundAt(w, 50, 0x120731c5, 0xbaf39337, 0xafab40b2, 0x2806e11b, 0x8714787c, 0x626383a1, 0x641db2ce, 0xeebce4cd);
    RoundAt(w, 51, 0x641db2ce, 0x120731c5, 0xeebce4cd, 0xafab40b2, 0x2806e11b, 0x4ebf54de, 0x3847ad66, 0x4481cc71);
    RoundAt(w, 52, 0x3847ad66, 0x641db2ce, 0x4481cc71, 0xeebce4cd, 0xafab40b2, 0x3835b44b, 0xe490436d, 0x99076cb3);
    RoundAt(w, 53, 0xe490436d, 0x3847ad66, 0x99076cb3, 0x4481cc71, 0xeebce4cd, 0x0000f600, 0x27e9f1d8, 0x8e11eb59);
    RoundAt(w, 54, 0x27e9f1d8, 0xe490436d, 0x8e11eb59, 0x99076cb3, 0x4481cc71, 0x1e84c7a3, 0x7b71f76d, 0x792410db);
    RoundAt(w, 55, 0x7b71f76d, 0x27e9f1d8, 0x792410db, 0x8e11eb59, 0x99076cb3, 0x98e04d98, 0x5e6456af, 0x09fa7c76);
    RoundAt(w, 56, 0x5e6456af, 0x7b71f76d, 0x09fa7c76, 0x792410db, 0x8e11eb59, 0x651d16a0, 0xc846093f, 0x5edc7ddb);
    RoundAt(w, 57, 0xc846093f, 0x5e6456af, 0x5edc7ddb, 0x09fa7c76, 0x792410db, 0x62658ca1, 0xd262ff50, 0xd79915ab);
    RoundAt(w, 58, 0xd262ff50, 0xc846093f, 0xd79915ab, 0x5edc7ddb, 0x09fa7c76, 0x458544d6, 0x09d785fd, 0xf211824f);
    RoundAt(w, 59, 0x09d785fd, 0xd262ff50, 0xf211824f, 0xd79915ab, 0x5edc7ddb, 0x44584cb7, 0x3f52de5a, 0x3498bfd4);
  }

  lemma {:induction false} AbcRounds60(w: seq<Word>)
    requires |w| == 80 && Rounds(INITIAL, w, 60) == State(0x3f52de5a, 0x09d785fd, 0x3498bfd4, 0xf211824f, 0xd79915ab)
    requires w[60] == 0x7ba06619 && w[61] == 0x6380aea2 && w[62] == 0x0ae55269 && w[63] == 0x627b49a1 && w[64] == 0x7cd45c9d
    requires w[65] == 0x000f0000 && w[66] == 0xfb50753a && w[67] == 0xec6765e8 && w[68] == 0xba3c2be2 && w[69] == 0x0060c000
    ensures Rounds(INITIAL, w, 70) == State(0x3f2588c2, 0x497093c0, 0xde37534a, 0x030f7cad, 0x4405957e)
  {
    hide Rounds; hide INITIAL;
    RoundAt(w, 60, 0x3f52de5a, 0x09d785fd, 0x3498bfd4, 0xf211824f, 0xd79915ab, 0x7ba06619, 0xd756c147, 0x4275e17f);
    RoundAt(w, 61, 0xd756c147, 0x3f52de5a, 0x4275e17f, 0x3498bfd4, 0xf211824f, 0x6380aea2, 0x548c9cb2, 0x8fd4b796);
    RoundAt(w, 62, 0x548c9cb2, 0xd756c147, 0x8fd4b796, 0x4275e17f, 0x3498bfd4, 0x0ae55269, 0xb66c020b, 0xf5d5b051);
    RoundAt(w, 63, 0xb66c020b, 0x548c9cb2, 0xf5d5b051, 0x8fd4b796, 0x4275e17f, 0x627b49a1, 0x6b61c9e1, 0x9523272c);
    RoundAt(w, 64, 0x6b61c9e1, 0xb66c020b, 0x9523272c, 0xf5d5b051, 0x8fd4b796, 0x7cd45c9d, 0x19dfa7ac, 0xed9b0082);
    RoundAt(w, 65, 0x19dfa7ac, 0x6b61c9e1, 0xed9b0082, 0x9523272c, 0xf5d5b051, 0x000f0000, 0x101655f9, 0x5ad87278);
    RoundAt(w, 66, 0x101655f9, 0x19dfa7ac, 0x5ad87278, 0xed9b0082, 0x9523272c, 0xfb50753a, 0x0c3df2b4, 0x0677e9eb);
    RoundAt(w, 67, 0x0c3df2b4, 0x101655f9, 0x0677e9eb, 0x5ad87278, 0xed9b0082, 0xec6765e8, 0x78dd4d2b, 0x4405957e);
    RoundAt(w, 68, 0x78dd4d2b, 0x0c3df2b4, 0x4405957e, 0x0677e9eb, 0x5ad87278, 0xba3c2be2, 0x497093c0, 0x030f7cad);
    RoundAt(w, 69, 0x497093c0, 0x78dd4d2b, 0x030f7cad, 0x4405957e, 0x0677e9eb, 0x0060c000, 0x3f2588c2, 0xde37534a);
  }

  lemma {:induction false} AbcRounds70(w: seq<Word>)
    requires |w| == 80 && Rounds(INITIAL, w, 70) == State(0x3f2588c2, 0x497093c0, 0xde37534a, 0x030f7cad, 0x4405957e)
    requires w[70] == 0x3a37cd05 && w[71] == 0x458546f4 && w[72] == 0xb8599dd6 && w[73] == 0x380a1a26 && w[74] == 0x01e02203
    requires w[75] == 0xe7cc3456 && w[76] == 0xe6e60b69 && w[77] == 0x00f60a00 && w[78] == 0x5795ef4f && w[79] == 0x822e0879
    ensures Rounds(INITIAL, w, 80) == State(0x42541b35, 0x5738d5e1, 0x21834873, 0x681e6df6, 0xd8fdf6ad)
  {
    hide Rounds; hide INITIAL;
    RoundAt(w, 70, 0x3f2588c2, 0x497093c0, 0xde37534a, 0x030f7cad, 0x4405957e, 0x3a37cd05, 0xc199f8c7, 0x125c24f0);
    RoundAt(w, 71, 0xc199f8c7, 0x3f2588c2, 0x125c24f0, 0xde37534a, 0x030f7cad, 0x458546f4, 0x39859de7, 0x8fc96230);
    RoundAt(w, 72, 0x39859de7, 0xc199f8c7, 0x8fc96230, 0x125c24f0, 0xde37534a, 0xb8599dd6, 0xedb42de4, 0xf0667e31);
    RoundAt(w, 73, 0xedb42de4, 0x39859de7, 0xf0667e31, 0x8fc96230, 0x125c24f0, 0x380a1a26, 0x11793f6f, 0xce616779);
    RoundAt(w, 74, 0x11793f6f, 0xedb42de4, 0xce616779, 0xf0667e31, 0x8fc96230, 0x01e02203, 0x5ee76897, 0x3b6d0b79);
    RoundAt(w, 75, 0x5ee76897, 0x11793f6f, 0x3b6d0b79, 0xce616779, 0xf0667e31, 0xe7cc3456, 0x63f7dab7, 0xc45e4fdb);
    RoundAt(w, 76, 0x63f7dab7, 0x5ee76897, 0xc45e4fdb, 0x3b6d0b79, 0xce616779, 0xe6e60b69, 0xa079b7d9, 0xd7b9da25);
    RoundAt(w, 77, 0xa079b7d9, 0x63f7dab7, 0xd7b9da25, 0xc45e4fdb, 0x3b6d0b79, 0x00f60a00, 0x860d21cc, 0xd8fdf6ad);
    RoundAt(w, 78, 0x860d21cc, 0xa079b7d9, 0xd8fdf6ad, 0xd7b9da25, 0xc45e4fdb, 0x5795ef4f, 0x5738d5e1, 0x681e6df6);
    RoundAt(w, 79, 0x5738d5e1, 0x860d21cc, 0x681e6df6, 0xd8fdf6ad, 0xd7b9da25, 0x822e0879, 0x42541b35, 0x21834873);
  }

  lemma {:induction false} AbcRounds(w: seq<Word>)
    requires |w| == 80 && IsSchedule(w) && forall t :: 0 <= t < 16 ==> w[t] == if t == 0 then 0x61626380 else if t == 15 then 0x18 else 0
    ensures Rounds(INITIAL, w, 80) == State(0x42541b35, 0x5738d5e1, 0x21834873, 0x681e6df6, 0xd8fdf6ad)
  {
    hide Rounds; hide IsSchedule;
    AbcWords16(w);
    AbcWords32(w);
    AbcWords48(w);
    AbcWords64(w);
    AbcStart(w);
    AbcRounds0(w);
    AbcRounds10(w);
    AbcRounds20(w);
    AbcRounds30(w);
    AbcRounds40(w);
    AbcRounds50(w);
    AbcRounds60(w);
    AbcRounds70(w);
  }

  lemma {:induction false} AbcStart(w: seq<Word>)
    ensures Rounds(INITIAL, w, 0) == State(0x67452301, 0xefcdab89, 0x98badcfe, 0x10325476, 0xc3d2e1f0)
  {
  }

  lemma {:induction false} AbcAdded()
    ensures Add(INITIAL, State(0x42541b35, 0x5738d5e1, 0x21834873, 0x681e6df6, 0xd8fdf6ad)) == State(0xa9993e36, 0x4706816a, 0xba3e2571, 0x7850c26c, 0x9cd0d89d)
  {
  }

  lemma {:induction false} AbcBytes()
    ensures StateBytes(State(0xa9993e36, 0x4706816a, 0xba3e2571, 0x7850c26c, 0x9cd0d89d)) == ABC_DIGEST
  {
    AbcByteWords();
  }

  lemma {:induction false} AbcByteWords()
    ensures WordBytes(0xa9993e36) == [0xa9, 0x99, 0x3e, 0x36]
    ensures WordBytes(0x4706816a) == [0x47, 0x06, 0x81, 0x6a]
    ensures WordBytes(0xba3e2571) == [0xba, 0x3e, 0x25, 0x71]
    ensures WordBytes(0x7850c26c) == [0x78, 0x50, 0xc2, 0x6c]
    ensures WordBytes(0x9cd0d89d) == [0x9c, 0xd0, 0xd8, 0x9d]
  {
  }

  const ABC_DIGEST: seq<Byte> :=
    [0xa9, 0x99, 0x3e, 0x36, 0x47, 0x06, 0x81, 0x6a, 0xba, 0x3e, 0x25, 0x71, 0x78, 0x50, 0xc2, 0x6c, 0x9c, 0xd0, 0xd8, 0x9d]

  /** The digest of "abc". */
  lemma {:induction false} AbcDigest()
    ensures Digest(ABC) == ABC_DIGEST
  {
    hide *;
    AbcPadded();
    AbcBlock();
    var w := WordsOf(Padded(ABC));
    ScheduleIs(w);
    AbcRounds(Schedule(w, 80));
    AbcAdded();
    AbcBytes();
    OneBlock(ABC);
  }

  lemma {:induction false} OneBlock(msg: seq<Byte>)
    requires |Padded(msg)| == 64
    ensures Digest(msg) == StateBytes(Add(INITIAL, Rounds(INITIAL, Schedule(WordsOf(Padded(msg)), 80), 80)))
  {
    hide StateBytes; hide Add; hide Rounds; hide Schedule; hide WordsOf; hide Padded; hide INITIAL;
    var p := Padded(msg);
    FoldAppend([], p);
    assert [] + p == p && Fold([]) == INITIAL;
  }
}
