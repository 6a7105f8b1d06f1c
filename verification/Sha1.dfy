/**
 SHA-1 of libyahoo2/sha1.c: whole blocks are copied into a buffer and read from
 there as words of the machine, whichever its byte order.
 */
module Sha1 {
  import opened Sha1Spec
  import Sha

  // ---- Byte order ----

  /** The word the machine reads from four bytes. */
  function Load(littleEndian: bool, b0: Byte, b1: Byte, b2: Byte, b3: Byte): Word
  {
    if littleEndian then WordOf(b3, b2, b1, b0) else WordOf(b0, b1, b2, b3)
  }

  /** BYTESWAP: the macro with its two rotations on a little-endian machine. */
  function ByteSwap(littleEndian: bool, x: Word): Word
  {
    if littleEndian then Swap(x) else x
  }

  function Swap(x: Word): Word
  {
    (((x >> 8) | (x << 24)) & 0xff00ff00) | (((x << 8) | (x >> 24)) & 0x00ff00ff)
  }

  lemma {:induction false} SwapReverses(b0: Byte, b1: Byte, b2: Byte, b3: Byte)
    ensures Swap(WordOf(b3, b2, b1, b0)) == WordOf(b0, b1, b2, b3)
  {
  }

  lemma {:induction false} LoadSwapped(littleEndian: bool, b0: Byte, b1: Byte, b2: Byte, b3: Byte)
    ensures ByteSwap(littleEndian, Load(littleEndian, b0, b1, b2, b3)) == WordOf(b0, b1, b2, b3)
  {
    hide Swap; hide WordOf;
    SwapReverses(b0, b1, b2, b3);
  }

  /** A uint64_t by its halves. */
  datatype Word64 = Word64(high: Word, low: Word)

  /** The word with the digits of `n`, which is `n` as a uint32_t. */
  function WordFrom(n: nat): Word
  {
    WordOf(ByteAt(n, 0x100_0000), ByteAt(n, 0x1_0000), ByteAt(n, 0x100), ByteAt(n, 1))
  }

  function Word64From(x: nat): Word64 { Word64(WordFrom(x / TWO_TO_THE_32), WordFrom(x % TWO_TO_THE_32)) }

  /** BYTESWAP64: the halves are swapped, and the bytes in each. */
  function ByteSwap64(littleEndian: bool, x: Word64): Word64
  {
    if littleEndian then Word64(Swap(x.low), Swap(x.high)) else x
  }

  function Reversed(x: seq<Byte>): (r: seq<Byte>)
    ensures |r| == |x|
  {
    seq(|x|, i requires 0 <= i < |x| => x[|x| - 1 - i])
  }

  /** The bytes of a uint64_t in memory. */
  function Memory(littleEndian: bool, x: Word64): (b: seq<Byte>)
    ensures |b| == 8
  {
    var bytes := WordBytes(x.high) + WordBytes(x.low);
    if littleEndian then Reversed(bytes) else bytes
  }

  lemma {:induction false} SwapBytes(x: Word)
    ensures WordBytes(Swap(x)) == [WordBytes(x)[3], WordBytes(x)[2], WordBytes(x)[1], WordBytes(x)[0]]
  {
  }

  lemma {:induction false} BytesOf(b0: Byte, b1: Byte, b2: Byte, b3: Byte)
    ensures WordBytes(WordOf(b0, b1, b2, b3)) == [b0, b1, b2, b3]
  {
  }

  /** Swapped on a machine with the least significant byte first, a number is in memory as on the other machines. */
  lemma {:induction false} SwappedInMemory(littleEndian: bool, x: Word64)
    ensures Memory(littleEndian, ByteSwap64(littleEndian, x)) == WordBytes(x.high) + WordBytes(x.low)
  {
    hide WordBytes; hide Swap;
    SwapBytes(x.high);
    SwapBytes(x.low);
  }

  /** SHA1Final's lengthPad: in memory, the length as the standard wants it. */
  lemma {:induction false} SwappedLength(littleEndian: bool, x: nat)
    requires x < TWO_TO_THE_64
    ensures Memory(littleEndian, ByteSwap64(littleEndian, Word64From(x))) == LengthBytes(x)
  {
    hide Memory; hide ByteSwap64; hide WordBytes; hide LengthBytes; hide WordOf; hide ByteAt;
    var high, low := x / TWO_TO_THE_32, x % TWO_TO_THE_32;
    SwappedInMemory(littleEndian, Word64From(x));
    Sha.HalfBytes(high, low);
    BytesOf(ByteAt(high, 0x100_0000), ByteAt(high, 0x1_0000), ByteAt(high, 0x100), ByteAt(high, 1));
    BytesOf(ByteAt(low, 0x100_0000), ByteAt(low, 0x1_0000), ByteAt(low, 0x100), ByteAt(low, 1));
  }

  // ---- Rounds ----

  /** F_0_19 to F_60_79. */
  function Sha1Choose(x: Word, y: Word, z: Word): Word { z ^ (x & (y ^ z)) }

  function Sha1Parity(x: Word, y: Word, z: Word): Word { x ^ y ^ z }

  function Sha1Majority(x: Word, y: Word, z: Word): Word { (x & (y | z)) | (y & z) }

  /** Each of the four, with its constant, is that of the standard. */
  lemma {:induction false} Sha1Loops(t: nat, x: Word, y: Word, z: Word)
    ensures t < 20 ==> F(t, x, y, z) == Sha1Choose(x, y, z) && K(t) == 0x5a827999
    ensures 20 <= t < 40 ==> F(t, x, y, z) == Sha1Parity(x, y, z) && K(t) == 0x6ed9eba1
    ensures 40 <= t < 60 ==> F(t, x, y, z) == Sha1Majority(x, y, z) && K(t) == 0x8f1bbcdc
    ensures 60 <= t ==> F(t, x, y, z) == Sha1Parity(x, y, z) && K(t) == 0xca62c1d6
  {
    ChooseForms(x, y, z);
    MajorityForms(x, y, z);
  }

  lemma {:induction false} WordsStep(littleEndian: bool, block: seq<Byte>, k: nat)
    requires |block| == 64 && k < 16
    ensures ByteSwap(littleEndian, Load(littleEndian, block[4 * k], block[4 * k + 1], block[4 * k + 2], block[4 * k + 3])) == WordsOf(block)[k]
  {
    hide WordOf; hide ByteSwap; hide Load;
    LoadSwapped(littleEndian, block[4 * k], block[4 * k + 1], block[4 * k + 2], block[4 * k + 3]);
  }

  // ---- Padding ----

  /** The table `padding`. */
  const PADDING: seq<Byte> := [0x80] + Zeros(63)

  lemma {:induction false} PaddingPrefix(n: nat)
    requires 1 <= n <= 64
    ensures |PADDING| == 64 && PADDING[..n] == [0x80] + Zeros(n - 1)
  {
    assert Zeros(63)[..n - 1] == Zeros(n - 1);
  }

  /** The number of bytes SHA1Final pads with, and that of the definition. */
  lemma {:induction false} PadCount(n: nat)
    ensures var left := 120 - n % 64; (if left > 64 then left - 64 else left) == 1 + ZeroCount(n)
  {
  }

  lemma {:induction false} LengthGrows(n: nat, k: nat)
    ensures (BitLength(n) + 8 * k) % TWO_TO_THE_64 == BitLength(n + k)
  {
    assert 8 * (n + k) == 8 * n + 8 * k;
    SumMod(8 * n, 8 * k);
  }

  lemma {:induction false} SumMod(x: nat, y: nat)
    ensures (x % TWO_TO_THE_64 + y) % TWO_TO_THE_64 == (x + y) % TWO_TO_THE_64
  {
    var q := x / TWO_TO_THE_64;
    var r := x % TWO_TO_THE_64;
    assert x == q * TWO_TO_THE_64 + r;
    Shift(q, r + y);
  }

  lemma {:induction false} Shift(q: nat, z: nat)
    ensures (q * TWO_TO_THE_64 + z) % TWO_TO_THE_64 == z % TWO_TO_THE_64
    decreases q
  {
    if q > 0 {
      Shift(q - 1, z);
      assert q * TWO_TO_THE_64 + z == ((q - 1) * TWO_TO_THE_64 + z) + TWO_TO_THE_64;
    }
  }

  class Sha1Context {
    const littleEndian: bool
    const hash: array<Word>
    const buffer: array<Byte>
    var totalLength: nat
    var bufferLength: nat
    ghost var done: seq<Byte>

    function Hash(): State
      requires hash.Length == 5
      reads hash
    {
      State(hash[0], hash[1], hash[2], hash[3], hash[4])
    }

    ghost predicate Valid()
      reads this, hash, buffer
    {
      && hash.Length == 5 && buffer.Length == 64 && bufferLength < 64 && totalLength == BitLength(|done| + bufferLength)
      && |done| % 64 == 0 && Hash() == Fold(done)
    }

    /** The message so far. */
    ghost function Message(): seq<Byte>
      requires bufferLength <= buffer.Length
      reads this, buffer
    {
      done + buffer[..bufferLength]
    }

    /** SHA1Init. */
    constructor (littleEndian: bool)
      ensures Valid() && Message() == [] && fresh(hash) && fresh(buffer)
    {
      this.littleEndian := littleEndian;
      hash := new Word[5];
      buffer := new Byte[64];
      totalLength, bufferLength, done := 0, 0, [];
      new;
      hash[0], hash[1], hash[2], hash[3], hash[4] := 0x67452301, 0xefcdab89, 0x98badcfe, 0x10325476, 0xc3d2e1f0;
    }

    lemma {:induction false} HashIs()
      requires hash.Length == 5
      ensures Hash() == State(hash[0], hash[1], hash[2], hash[3], hash[4])
    {
    }

    /** SHA1Guts; the unrolled rounds are written as loops. */
    method Guts()
      requires hash.Length == 5 && buffer.Length == 64
      modifies hash
      ensures Hash() == CompressWords(old(Hash()), WordsOf(buffer[..]))
    {
      hide *;
      ghost var words := WordsOf(buffer[..]);
      ghost var h := Hash();
      var W := new Word[80];
      for i := 0 to 16
        modifies W
        invariant W[..i] == words[..i]
      {
        WordsStep(littleEndian, buffer[..], i);
        W[i] := ByteSwap(littleEndian, Load(littleEndian, buffer[4 * i], buffer[4 * i + 1], buffer[4 * i + 2], buffer[4 * i + 3]));
      }
      assert words[..16] == words;
      Sha.ScheduleBase(words);
      for t := 16 to 80
        modifies W
        invariant W[..t] == Schedule(words, t)
      {
        Sha.ScheduleStep(words, W[..t], t);
        W[t] := Sha.ShaRotl1(W[t - 3] ^ W[t - 8] ^ W[t - 14] ^ W[t - 16]);
      }
      ghost var w := W[..];
      assert w == W[..80];
      HashIs();
      var a, b, c, d, e := RunRounds(W);
      hash[0], hash[1], hash[2], hash[3], hash[4] := Plus(hash[0], a), Plus(hash[1], b), Plus(hash[2], c), Plus(hash[3], d), Plus(hash[4], e);
      HashIs();
      Sha.CompressIs(h, words, State(a, b, c, d, e));
    }

    /** The rounds of SHA1Guts, DO_ROUND twenty times with each function and constant. */
    method RunRounds(W: array<Word>) returns (a: Word, b: Word, c: Word, d: Word, e: Word)
      requires hash.Length == 5 && W.Length == 80
      ensures State(a, b, c, d, e) == Rounds(Hash(), W[..], 80)
    {
      hide *;
      ghost var h, w := Hash(), W[..];
      HashIs();
      a, b, c, d, e := hash[0], hash[1], hash[2], hash[3], hash[4];
      Sha.RoundsBase(h, w);
      for t := 0 to 20
        invariant State(a, b, c, d, e) == Rounds(h, w, t)
      {
        Sha.RoundStep(h, w, t);
        Sha.StateIs(a, b, c, d, e);
        Sha1Loops(t, b, c, d);
        var temp := Sha.ShaSum(Sha.ShaRotl5(a), Sha1Choose(b, c, d), e, W[t], 0x5a827999);
        e, d, c, b, a := d, c, Sha.ShaRotl30(b), a, temp;
      }
      for t := 20 to 40
        invariant State(a, b, c, d, e) == Rounds(h, w, t)
      {
        Sha.RoundStep(h, w, t);
        Sha.StateIs(a, b, c, d, e);
        Sha1Loops(t, b, c, d);
        var temp := Sha.ShaSum(Sha.ShaRotl5(a), Sha1Parity(b, c, d), e, W[t], 0x6ed9eba1);
        e, d, c, b, a := d, c, Sha.ShaRotl30(b), a, temp;
      }
      for t := 40 to 60
        invariant State(a, b, c, d, e) == Rounds(h, w, t)
      {
        Sha.RoundStep(h, w, t);
        Sha.StateIs(a, b, c, d, e);
        Sha1Loops(t, b, c, d);
        var temp := Sha.ShaSum(Sha.ShaRotl5(a), Sha1Majority(b, c, d), e, W[t], 0x8f1bbcdc);
        e, d, c, b, a := d, c, Sha.ShaRotl30(b), a, temp;
      }
      for t := 60 to 80
        invariant State(a, b, c, d, e) == Rounds(h, w, t)
      {
        Sha.RoundStep(h, w, t);
        Sha.StateIs(a, b, c, d, e);
        Sha1Loops(t, b, c, d);
        var temp := Sha.ShaSum(Sha.ShaRotl5(a), Sha1Parity(b, c, d), e, W[t], 0xca62c1d6);
        e, d, c, b, a := d, c, Sha.ShaRotl30(b), a, temp;
      }
    }

    /** memcpy into the buffer, behind what is there. */
    method Copy(bytes: seq<Byte>)
      requires buffer.Length == 64 && bufferLength + |bytes| <= 64
      modifies buffer
      ensures buffer[..bufferLength + |bytes|] == old(buffer[..bufferLength]) + bytes
    {
      forall k | 0 <= k < |bytes| { buffer[bufferLength + k] := bytes[k]; }
    }

    /** One turn of the loop of SHA1Update, on the bytes that fit. */
    method Take(bytes: seq<Byte>)
      requires Valid() && bufferLength + |bytes| <= 64
      modifies this, hash, buffer
      ensures Valid() && Message() == old(Message()) + bytes
    {
      hide *;
      ValidIs();
      ghost var left := buffer[..bufferLength];
      Copy(bytes);
      LengthGrows(|done| + bufferLength, |bytes|);
      totalLength := (totalLength + 8 * |bytes|) % TWO_TO_THE_64;
      bufferLength := bufferLength + |bytes|;
      assert done + buffer[..bufferLength] == done + left + bytes;
      if bufferLength == 64 {
        assert buffer[..64] == buffer[..];
        Guts();
        FoldAppend(done, buffer[..]);
        done := done + buffer[..];
        bufferLength := 0;
        assert done + buffer[..0] == done;
      }
      ValidIs();
    }

    lemma {:induction false} ValidIs()
      ensures Valid() <==>
              && hash.Length == 5 && buffer.Length == 64 && bufferLength < 64 && totalLength == BitLength(|done| + bufferLength)
              && |done| % 64 == 0 && Hash() == Fold(done)
      ensures bufferLength <= buffer.Length ==> Message() == done + buffer[..bufferLength] && |Message()| == |done| + bufferLength
    {
      hide BitLength; hide Fold;
    }

    /** SHA1Update. */
    method Update(data: seq<Byte>)
      requires Valid()
      modifies this, hash, buffer
      ensures Valid() && Message() == old(Message()) + data
    {
      hide *;
      ValidIs();
      ghost var m := Message();
      var p := 0;
      assert m + data[..0] == m;
      while p < |data|
        invariant p <= |data| && Valid() && bufferLength <= buffer.Length && Message() == m + data[..p]
      {
        ValidIs();
        var bufferBytesLeft := 64 - bufferLength;
        var bytesToCopy := if bufferBytesLeft > |data| - p then |data| - p else bufferBytesLeft;
        Take(data[p..p + bytesToCopy]);
        ValidIs();
        assert m + data[..p] + data[p..p + bytesToCopy] == m + data[..p + bytesToCopy];
        p := p + bytesToCopy;
      }
      assert data[..p] == data;
    }

    /** SHA1Final. */
    method Final() returns (digest: seq<Byte>)
      requires Valid()
      modifies this, hash, buffer
      ensures digest == Digest(old(Message()))
    {
      hide *;
      ValidIs();
      ghost var m := Message();
      PadCount(|m|);
      Partial();
      Sha.PaddedIs(m);
      var bytesToPad := 120 - bufferLength;
      if bytesToPad > 64 { bytesToPad := bytesToPad - 64; }
      var lengthPad := ByteSwap64(littleEndian, Word64From(totalLength));
      SwappedLength(littleEndian, totalLength);
      PaddingPrefix(bytesToPad);
      Update(PADDING[..bytesToPad]);
      PaddedSplit(m, bytesToPad - 1);
      Update(Memory(littleEndian, lengthPad));
      AtBlockEnd();
      HashIs();
      digest := StateBytes(State(hash[0], hash[1], hash[2], hash[3], hash[4]));
    }

    lemma {:induction false} Partial()
      requires Valid()
      ensures bufferLength == |Message()| % 64
    {
    }

    lemma {:induction false} AtBlockEnd()
      requires Valid() && |Message()| % 64 == 0
      ensures Hash() == Fold(Message()) && hash.Length == 5
    {
      Partial();
      assert done + buffer[..0] == done;
    }
  }

  lemma {:induction false} PaddedSplit(m: seq<Byte>, k: nat)
    ensures m + ([0x80] + Zeros(k)) == Sha.PaddedBy(m, k)
  {
  }

  // ---- The two programs agree ----

  /** The chunks of a message, one after the other. */
  function Joined(chunks: seq<seq<Byte>>): seq<Byte>
  {
    if chunks == [] then [] else Joined(chunks[..|chunks| - 1]) + chunks[|chunks| - 1]
  }

  lemma {:induction false} JoinedNext(chunks: seq<seq<Byte>>, i: nat)
    requires i < |chunks|
    ensures Joined(chunks[..i + 1]) == Joined(chunks[..i]) + chunks[i]
  {
    assert chunks[..i + 1][..i] == chunks[..i];
  }

  /** For every message, and every way of splitting it into updates for either program, both digests are the one of the
      definition. */
  method BothDigests(chunks: seq<seq<Byte>>, chunks': seq<seq<Byte>>, littleEndian: bool) returns (d: seq<Byte>, d': seq<Byte>)
    requires Joined(chunks) == Joined(chunks')
    ensures d == d' == Digest(Joined(chunks))
  {
    hide Digest; hide Joined;
    var sha := new Sha.ShaContext();
    JoinedNone();
    for i := 0 to |chunks|
      invariant sha.Valid() && sha.Message() == Joined(chunks[..i]) && fresh(sha) && fresh(sha.H) && fresh(sha.W)
    {
      JoinedNext(chunks, i);
      sha.Update(chunks[i]);
    }
    assert chunks[..|chunks|] == chunks;
    var hashout := new Byte[20];
    sha.Final(hashout);
    d := hashout[..];
    var sc := new Sha1Context(littleEndian);
    for i := 0 to |chunks'|
      invariant sc.Valid() && sc.Message() == Joined(chunks'[..i]) && fresh(sc) && fresh(sc.hash) && fresh(sc.buffer)
    {
      JoinedNext(chunks', i);
      sc.Update(chunks'[i]);
    }
    assert chunks'[..|chunks'|] == chunks';
    d' := sc.Final();
  }

  lemma {:induction false} JoinedNone()
    ensures Joined([]) == []
  {
  }
}
