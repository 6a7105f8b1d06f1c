/**
 SHA-1 as FIPS 180-4 defines it (sections 4.1.1, 4.2.1, 5.1.1, 5.3.1 and 6.1.2):
 one-shot, on a whole message.
 */
module Sha1Spec {
  type Byte = bv8
  type Word = bv32

  datatype State = State(a: Word, b: Word, c: Word, d: Word, e: Word)

  const INITIAL := State(0x67452301, 0xefcdab89, 0x98badcfe, 0x10325476, 0xc3d2e1f0)

  function Choose(x: Word, y: Word, z: Word): Word { (x & y) ^ (!x & z) }

  function Parity(x: Word, y: Word, z: Word): Word { x ^ y ^ z }

  function Majority(x: Word, y: Word, z: Word): Word { (x & y) ^ (x & z) ^ (y & z) }

  function Rotate1(x: Word): Word { x.RotateLeft(1) }

  function Rotate5(x: Word): Word { x.RotateLeft(5) }

  function Rotate30(x: Word): Word { x.RotateLeft(30) }

  function F(t: nat, x: Word, y: Word, z: Word): Word
  {
    if t < 20 then Choose(x, y, z) else if t < 40 then Parity(x, y, z) else if t < 60 then Majority(x, y, z) else Parity(x, y, z)
  }

  function K(t: nat): Word
  {
    if t < 20 then 0x5a827999 else if t < 40 then 0x6ed9eba1 else if t < 60 then 0x8f1bbcdc else 0xca62c1d6
  }

  function Sum(r: Word, f: Word, e: Word, k: Word, w: Word): Word { r + f + e + k + w }

  function Round(s: State, t: nat, w: Word): State
  {
    State(Sum(Rotate5(s.a), F(t, s.b, s.c, s.d), s.e, K(t), w), s.a, Rotate30(s.b), s.c, s.d)
  }

  function Rounds(s: State, w: seq<Word>, n: nat): State
    requires n <= |w|
  {
    if n == 0 then s else Round(Rounds(s, w, n - 1), n - 1, w[n - 1])
  }

  function Mix(x: Word, y: Word, z: Word, u: Word): Word { x ^ y ^ z ^ u }

  /** The word the message schedule has behind `w`. */
  function NextWord(w: seq<Word>): Word
    requires |w| >= 16
  {
    Rotate1(Mix(w[|w| - 3], w[|w| - 8], w[|w| - 14], w[|w| - 16]))
  }

  function Schedule(block: seq<Word>, n: nat): (w: seq<Word>)
    requires |block| == 16 && n >= 16
    ensures |w| == n
  {
    if n == 16 then block else var w := Schedule(block, n - 1); w + [NextWord(w)]
  }

  function WordOf(b0: Byte, b1: Byte, b2: Byte, b3: Byte): Word
  {
    ((b0 as Word) << 24) | ((b1 as Word) << 16) | ((b2 as Word) << 8) | (b3 as Word)
  }

  function WordsOf(block: seq<Byte>): (w: seq<Word>)
    requires |block| == 64
    ensures |w| == 16
  {
    seq(16, k requires 0 <= k < 16 => WordOf(block[4 * k], block[4 * k + 1], block[4 * k + 2], block[4 * k + 3]))
  }

  function Plus(x: Word, y: Word): Word { x + y }

  function Add(h: State, s: State): State
  {
    State(Plus(h.a, s.a), Plus(h.b, s.b), Plus(h.c, s.c), Plus(h.d, s.d), Plus(h.e, s.e))
  }

  function CompressWords(h: State, words: seq<Word>): State
    requires |words| == 16
  {
    Add(h, Rounds(h, Schedule(words, 80), 80))
  }

  /** The hash value after the blocks of `data`. */
  function Fold(data: seq<Byte>): State
    requires |data| % 64 == 0
    decreases |data|
  {
    if |data| < 64 then INITIAL
    else
      var n := |data| - 64;
      CompressWords(Fold(data[..n]), WordsOf(data[n..]))
  }

  function Zeros(k: nat): (z: seq<Byte>)
    ensures |z| == k
  {
    seq(k, i requires 0 <= i < k => 0)
  }

  function Digit(x: nat, weight: nat): (d: nat)
    requires weight > 0
    ensures d < 0x100
  {
    x / weight % 0x100
  }

  function ByteAt(x: nat, weight: nat): Byte
    requires weight > 0
  {
    Digit(x, weight) as Byte
  }

  /** The eight bytes of a 64-bit number, the most significant first. */
  function LengthBytes(x: nat): (b: seq<Byte>)
    ensures |b| == 8
  {
    [ByteAt(x, 0x100_0000_0000_0000), ByteAt(x, 0x1_0000_0000_0000), ByteAt(x, 0x100_0000_0000), ByteAt(x, 0x1_0000_0000),
     ByteAt(x, 0x100_0000), ByteAt(x, 0x1_0000), ByteAt(x, 0x100), ByteAt(x, 1)]
  }

  const TWO_TO_THE_32 := 0x1_0000_0000
  const TWO_TO_THE_64 := 0x1_0000_0000_0000_0000

  /** The length of the message in bits, modulo 2 to the 64. */
  function BitLength(n: nat): (x: nat)
    ensures x < TWO_TO_THE_64
  {
    8 * n % TWO_TO_THE_64
  }

  /** As many zero bytes as fill the block up to the length. */
  function ZeroCount(n: nat): (k: nat)
    ensures k < 64 && (n + 1 + k) % 64 == 56
  {
    (55 - n) % 64
  }

  lemma {:induction false} BlockFilled(n: nat)
    ensures (n + 1 + ZeroCount(n) + 8) % 64 == 0
  {
    EightMore(n + 1 + ZeroCount(n));
  }

  lemma {:induction false} EightMore(m: nat)
    requires m % 64 == 56
    ensures (m + 8) % 64 == 0
  {
  }

  function Padded(msg: seq<Byte>): (p: seq<Byte>)
    ensures |p| % 64 == 0
  {
    hide ZeroCount; hide BitLength; hide LengthBytes;
    BlockFilled(|msg|);
    msg + [0x80] + Zeros(ZeroCount(|msg|)) + LengthBytes(BitLength(|msg|))
  }

  function WordBytes(w: Word): (b: seq<Byte>)
    ensures |b| == 4
  {
    [((w >> 24) & 0xff) as Byte, ((w >> 16) & 0xff) as Byte, ((w >> 8) & 0xff) as Byte, (w & 0xff) as Byte]
  }

  function StateBytes(s: State): (b: seq<Byte>)
    ensures |b| == 20
  {
    WordBytes(s.a) + WordBytes(s.b) + WordBytes(s.c) + WordBytes(s.d) + WordBytes(s.e)
  }

  function Digest(msg: seq<Byte>): (d: seq<Byte>)
    ensures |d| == 20
  {
    StateBytes(Fold(Padded(msg)))
  }

  // ---- What the implementations rely on ----

  lemma {:induction false} FoldAppend(data: seq<Byte>, block: seq<Byte>)
    requires |data| % 64 == 0 && |block| == 64
    ensures |data + block| % 64 == 0 && Fold(data + block) == CompressWords(Fold(data), WordsOf(block))
  {
    hide CompressWords; hide WordsOf;
    assert (data + block)[..|data|] == data && (data + block)[|data|..] == block;
  }

  /** The other forms of the functions that the two programs use. */
  lemma {:induction false} ChooseForms(x: Word, y: Word, z: Word)
    ensures ((y ^ z) & x) ^ z == Choose(x, y, z) && z ^ (x & (y ^ z)) == Choose(x, y, z)
  {
  }

  lemma {:induction false} MajorityForms(x: Word, y: Word, z: Word)
    ensures (x & y) | (z & (x | y)) == Majority(x, y, z) && (x & (y | z)) | (y & z) == Majority(x, y, z)
  {
  }

  lemma {:induction false} RotateForms(x: Word)
    ensures (x << 1) | (x >> 31) == Rotate1(x) && (x << 5) | (x >> 27) == Rotate5(x) && (x << 30) | (x >> 2) == Rotate30(x)
  {
  }

  lemma {:induction false} SumOrder(r: Word, f: Word, e: Word, k: Word, w: Word)
    ensures r + f + e + w + k == Sum(r, f, e, k, w)
  {
  }
}
