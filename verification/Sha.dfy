/**
 SHA-1 of libjabber/sha.c: bytes are shifted into the message words one by one,
 over whatever the words held before.
 */
module Sha {
  import opened Sha1Spec

  function Push(w: Word, b: Byte): Word { (w << 8) | (b as Word) }

  /** A word into which bytes were shifted. */
  function Fed(stale: Word, bytes: seq<Byte>): Word
  {
    if bytes == [] then stale else Push(Fed(stale, bytes[..|bytes| - 1]), bytes[|bytes| - 1])
  }

  lemma {:induction false} PushFour(stale: Word, b0: Byte, b1: Byte, b2: Byte, b3: Byte)
    ensures Push(Push(Push(Push(stale, b0), b1), b2), b3) == WordOf(b0, b1, b2, b3)
  {
  }

  lemma {:induction false} FedMore(stale: Word, bytes: seq<Byte>, b: Byte)
    ensures Fed(stale, []) == stale && Fed(stale, bytes + [b]) == Push(Fed(stale, bytes), b)
  {
    hide Push;
    assert (bytes + [b])[..|bytes|] == bytes;
  }

  /** After four bytes nothing is left of what the word held. */
  lemma {:induction false} FedFour(stale: Word, b: seq<Byte>)
    requires |b| == 4
    ensures Fed(stale, b) == WordOf(b[0], b[1], b[2], b[3])
  {
    hide *;
    assert b == [] + [b[0]] + [b[1]] + [b[2]] + [b[3]];
    FedMore(stale, [], b[0]);
    FedMore(stale, [] + [b[0]], b[1]);
    FedMore(stale, [] + [b[0]] + [b[1]], b[2]);
    FedMore(stale, [] + [b[0]] + [b[1]] + [b[2]], b[3]);
    PushFour(stale, b[0], b[1], b[2], b[3]);
  }

  /** The bytes of `part` that belong to the k-th word. */
  function BytesFor(part: seq<Byte>, k: nat): seq<Byte>
  {
    var low, high := 4 * k, 4 * k + 4;
    if |part| <= low then [] else if |part| < high then part[low..] else part[low..high]
  }

  lemma {:induction false} BytesForMore(part: seq<Byte>, b: Byte, k: nat)
    ensures BytesFor(part + [b], k) == if k == |part| / 4 then BytesFor(part, k) + [b] else BytesFor(part, k)
  {
  }

  /** The first sixteen words of `w` are those of `stale`, with the bytes of `part` shifted in. */
  ghost predicate Filled(w: seq<Word>, stale: seq<Word>, part: seq<Byte>)
  {
    |w| == 80 && |stale| == 16 && forall k :: 0 <= k < 16 ==> w[k] == Fed(stale[k], BytesFor(part, k))
  }

  lemma {:induction false} FilledEmpty(w: seq<Word>)
    requires |w| == 80
    ensures Filled(w, w[..16], [])
  {
    hide Push;
    forall k | 0 <= k < 16 ensures w[k] == Fed(w[..16][k], BytesFor([], k)) { FedMore(w[k], [], 0); }
  }

  lemma {:induction false} FilledMore(w: seq<Word>, stale: seq<Word>, part: seq<Byte>, b: Byte)
    requires Filled(w, stale, part) && |part| < 64
    ensures Filled(w[|part| / 4 := Push(w[|part| / 4], b)], stale, part + [b])
  {
    hide Push; hide Fed; hide BytesFor;
    var w' := w[|part| / 4 := Push(w[|part| / 4], b)];
    forall k | 0 <= k < 16 ensures w'[k] == Fed(stale[k], BytesFor(part + [b], k)) {
      BytesForMore(part, b, k);
      FedMore(stale[k], BytesFor(part, k), b);
    }
  }

  /** A full block: nothing is left of the words that were there. */
  lemma {:induction false} FilledFull(w: seq<Word>, stale: seq<Word>, part: seq<Byte>)
    requires Filled(w, stale, part) && |part| == 64
    ensures w[..16] == WordsOf(part)
  {
    hide Push; hide Fed; hide WordOf;
    forall k | 0 <= k < 16 ensures w[k] == WordsOf(part)[k] {
      var b := BytesFor(part, k);
      assert b == part[4 * k..4 * k + 4];
      FedFour(stale[k], b);
    }
  }

  // ---- The length, in two halves ----

  lemma {:induction false} BitLengthNext(n: nat)
    ensures BitLength(n + 1) == if BitLength(n) + 8 < TWO_TO_THE_64 then BitLength(n) + 8 else BitLength(n) + 8 - TWO_TO_THE_64
  {
  }

  lemma {:induction false} CounterStep(hi: nat, lo: nat, n: nat)
    requires hi < TWO_TO_THE_32 && lo < TWO_TO_THE_32 && hi * TWO_TO_THE_32 + lo == BitLength(n)
    ensures var lo' := (lo + 8) % TWO_TO_THE_32;
            var hi' := (hi + if lo' < 8 then 1 else 0) % TWO_TO_THE_32;
            hi' * TWO_TO_THE_32 + lo' == BitLength(n + 1)
  {
    hide BitLength;
    BitLengthNext(n);
    if lo + 8 < TWO_TO_THE_32 {
      assert (lo + 8) % TWO_TO_THE_32 == lo + 8;
    } else {
      assert (lo + 8) % TWO_TO_THE_32 == lo + 8 - TWO_TO_THE_32;
    }
  }

  lemma {:induction false} SameDigit(k: nat, q: nat)
    ensures (0x100 * k + q) % 0x100 == q % 0x100
  {
  }

  lemma {:induction false} LowDigits(hi: nat, lo: nat)
    requires lo < TWO_TO_THE_32
    ensures var x := hi * TWO_TO_THE_32 + lo;
            && Digit(x, 0x100_0000) == Digit(lo, 0x100_0000) && Digit(x, 0x1_0000) == Digit(lo, 0x1_0000)
            && Digit(x, 0x100) == Digit(lo, 0x100) && Digit(x, 1) == Digit(lo, 1)
  {
    var x := hi * TWO_TO_THE_32 + lo;
    assert x / 0x100_0000 == 0x100 * hi + lo / 0x100_0000;
    assert x / 0x1_0000 == 0x100 * (0x100 * hi) + lo / 0x1_0000;
    assert x / 0x100 == 0x100 * (0x1_0000 * hi) + lo / 0x100;
    assert x / 1 == 0x100 * (0x100_0000 * hi) + lo / 1;
    SameDigit(hi, lo / 0x100_0000);
    SameDigit(0x100 * hi, lo / 0x1_0000);
    SameDigit(0x1_0000 * hi, lo / 0x100);
    SameDigit(0x100_0000 * hi, lo / 1);
  }

  lemma {:induction false} HighDigits(hi: nat, lo: nat)
    requires lo < TWO_TO_THE_32
    ensures var x := hi * TWO_TO_THE_32 + lo;
            && Digit(x, 0x100_0000_0000_0000) == Digit(hi, 0x100_0000) && Digit(x, 0x1_0000_0000_0000) == Digit(hi, 0x1_0000)
            && Digit(x, 0x100_0000_0000) == Digit(hi, 0x100) && Digit(x, 0x1_0000_0000) == Digit(hi, 1)
  {
    var x := hi * TWO_TO_THE_32 + lo;
    assert x / 0x1_0000_0000 == hi;
    assert x / 0x100_0000_0000 == hi / 0x100;
    assert x / 0x1_0000_0000_0000 == hi / 0x1_0000;
    assert x / 0x100_0000_0000_0000 == hi / 0x100_0000;
  }

  lemma {:induction false} HalfBytes(hi: nat, lo: nat)
    requires hi < TWO_TO_THE_32 && lo < TWO_TO_THE_32
    ensures LengthBytes(hi * TWO_TO_THE_32 + lo) ==
              [ByteAt(hi, 0x100_0000), ByteAt(hi, 0x1_0000), ByteAt(hi, 0x100), ByteAt(hi, 1),
               ByteAt(lo, 0x100_0000), ByteAt(lo, 0x1_0000), ByteAt(lo, 0x100), ByteAt(lo, 1)]
  {
    hide Digit;
    LowDigits(hi, lo);
    HighDigits(hi, lo);
  }

  // ---- Rounds ----

  /** The three functions of shaHashBlock, and its rotations. */
  function ShaChoose(b: Word, c: Word, d: Word): Word { ((c ^ d) & b) ^ d }

  function ShaParity(b: Word, c: Word, d: Word): Word { b ^ c ^ d }

  function ShaMajority(b: Word, c: Word, d: Word): Word { (b & c) | (d & (b | c)) }

  /** The constant and the function of each of its four loops are those of the standard. */
  lemma {:induction false} ShaLoops(t: nat, b: Word, c: Word, d: Word)
    ensures t < 20 ==> F(t, b, c, d) == ShaChoose(b, c, d) && K(t) == 0x5a827999
    ensures 20 <= t < 40 ==> F(t, b, c, d) == ShaParity(b, c, d) && K(t) == 0x6ed9eba1
    ensures 40 <= t < 60 ==> F(t, b, c, d) == ShaMajority(b, c, d) && K(t) == 0x8f1bbcdc
    ensures 60 <= t ==> F(t, b, c, d) == ShaParity(b, c, d) && K(t) == 0xca62c1d6
  {
    ChooseForms(b, c, d);
    MajorityForms(b, c, d);
  }

  function ShaRotl1(x: Word): Word { (x << 1) | (x >> 31) }

  function ShaRotl5(x: Word): Word { (x << 5) | (x >> 27) }

  function ShaRotl30(x: Word): Word { (x << 30) | (x >> 2) }

  lemma {:induction false} ShaRotations(x: Word)
    ensures ShaRotl1(x) == Rotate1(x) && ShaRotl5(x) == Rotate5(x) && ShaRotl30(x) == Rotate30(x)
  {
    RotateForms(x);
  }

  function ShaSum(r: Word, f: Word, e: Word, w: Word, k: Word): Word { r + f + e + w + k }

  lemma {:induction false} ShaSumIsSum(r: Word, f: Word, e: Word, w: Word, k: Word)
    ensures ShaSum(r, f, e, w, k) == Sum(r, f, e, k, w)
  {
    SumOrder(r, f, e, k, w);
  }

  lemma {:induction false} RoundStep(s: State, w: seq<Word>, t: nat)
    requires t < |w|
    ensures var r := Rounds(s, w, t);
            Rounds(s, w, t + 1) == State(ShaSum(ShaRotl5(r.a), F(t, r.b, r.c, r.d), r.e, w[t], K(t)), r.a, ShaRotl30(r.b), r.c, r.d)
  {
    hide Sum; hide F; hide Rotate5; hide Rotate30; hide ShaRotl5; hide ShaRotl30; hide ShaSum; hide K;
    var r := Rounds(s, w, t);
    ShaRotations(r.a);
    ShaRotations(r.b);
    ShaSumIsSum(ShaRotl5(r.a), F(t, r.b, r.c, r.d), r.e, w[t], K(t));
  }

  lemma {:induction false} ScheduleStep(block: seq<Word>, w: seq<Word>, t: nat)
    requires |block| == 16 && 16 <= t && w == Schedule(block, t)
    ensures Schedule(block, t + 1) == w + [ShaRotl1(w[t - 3] ^ w[t - 8] ^ w[t - 14] ^ w[t - 16])]
  {
    hide ShaRotl1; hide Rotate1;
    ShaRotations(Mix(w[t - 3], w[t - 8], w[t - 14], w[t - 16]));
  }

  // ---- The hash value as bytes ----

  function TopByte(w: Word): Byte { ((w >> 24) & 0xff) as Byte }

  function ShiftOut(w: Word): Word { w << 8 }

  /** A word after `r` of its bytes were shifted out. */
  function Shifted(w: Word, r: nat): Word
  {
    if r == 0 then w else ShiftOut(Shifted(w, r - 1))
  }

  lemma {:induction false} TopFirst(w: Word)
    ensures TopByte(w) == WordBytes(w)[0]
  {
  }

  lemma {:induction false} TopSecond(w: Word)
    ensures TopByte(ShiftOut(w)) == WordBytes(w)[1]
  {
    assert ((w << 8) >> 24) & 0xff == (w >> 16) & 0xff;
  }

  lemma {:induction false} TopThird(w: Word)
    ensures TopByte(ShiftOut(ShiftOut(w))) == WordBytes(w)[2]
  {
    assert (((w << 8) << 8) >> 24) & 0xff == (w >> 8) & 0xff;
  }

  lemma {:induction false} TopLast(w: Word)
    ensures TopByte(ShiftOut(ShiftOut(ShiftOut(w)))) == WordBytes(w)[3]
  {
    assert ((((w << 8) << 8) << 8) >> 24) & 0xff == w & 0xff;
  }

  lemma {:induction false} ShiftedMore(w: Word, r: nat)
    ensures Shifted(w, 0) == w && Shifted(w, r + 1) == ShiftOut(Shifted(w, r))
  {
    hide ShiftOut;
  }

  lemma {:induction false} ShiftedTop(w: Word, r: nat)
    requires r < 4
    ensures TopByte(Shifted(w, r)) == WordBytes(w)[r]
  {
    hide *;
    ShiftedMore(w, 0);
    ShiftedMore(w, 1);
    ShiftedMore(w, 2);
    if r == 0 { TopFirst(w); } else if r == 1 { TopSecond(w); } else if r == 2 { TopThird(w); } else { TopLast(w); }
  }

  /** The word of the hash value, and the bytes of it that are left. */
  function StateWord(s: State, k: nat): Word
    requires k < 5
  {
    if k == 0 then s.a else if k == 1 then s.b else if k == 2 then s.c else if k == 3 then s.d else s.e
  }

  function BytesOut(i: nat, k: nat): nat
  {
    if i <= 4 * k then 0 else if i >= 4 * k + 4 then 4 else i - 4 * k
  }

  lemma {:induction false} StateByteAt(s: State, i: nat)
    requires i < 20
    ensures StateBytes(s)[i] == WordBytes(StateWord(s, i / 4))[i % 4]
  {
    hide WordBytes;
  }

  // ---- Padding ----

  function PaddedBy(msg: seq<Byte>, k: nat): seq<Byte> { msg + [0x80] + Zeros(k) }

  lemma {:induction false} PaddedMore(msg: seq<Byte>, k: nat)
    ensures PaddedBy(msg, 0) == msg + [0x80] && PaddedBy(msg, k + 1) == PaddedBy(msg, k) + [0] && |PaddedBy(msg, k)| == |msg| + 1 + k
  {
    assert Zeros(0) == [] && Zeros(k + 1) == Zeros(k) + [0];
  }

  lemma {:induction false} PaddedIs(msg: seq<Byte>)
    ensures Padded(msg) == PaddedBy(msg, ZeroCount(|msg|)) + LengthBytes(BitLength(|msg|))
    ensures ZeroCount(|msg|) < 64 && (|msg| + 1 + ZeroCount(|msg|)) % 64 == 56
    ensures Digest(msg) == StateBytes(Fold(Padded(msg))) && |Padded(msg)| % 64 == 0
  {
    hide LengthBytes; hide BitLength; hide Fold; hide StateBytes; hide Zeros;
  }

  /** Fewer zeros do not fill the block. */
  lemma {:induction false} NotYet(n: nat, z: nat)
    requires z <= ZeroCount(n)
    ensures (n + 1 + z) % 64 == 56 <==> z == ZeroCount(n)
  {
  }

  class ShaContext {
    const H: array<Word>
    const W: array<Word>
    var lenW: nat
    var sizeHi: nat
    var sizeLo: nat
    /** The message so far: whole blocks, and the bytes of the block being filled. */
    ghost var done: seq<Byte>
    ghost var part: seq<Byte>
    ghost var stale: seq<Word>

    function Hash(): State
      requires H.Length == 5
      reads H
    {
      State(H[0], H[1], H[2], H[3], H[4])
    }

    ghost predicate Valid()
      reads this, H, W
    {
      && H != W && H.Length == 5 && W.Length == 80 && lenW == |part| < 64
      && Filled(W[..], stale, part)
      && sizeHi < TWO_TO_THE_32 && sizeLo < TWO_TO_THE_32 && sizeHi * TWO_TO_THE_32 + sizeLo == BitLength(|done| + |part|)
      && |done| % 64 == 0 && Hash() == Fold(done)
    }

    /** The message so far. */
    ghost function Message(): seq<Byte>
      reads this
    {
      done + part
    }

    constructor ()
      ensures Valid() && Message() == [] && fresh(H) && fresh(W)
    {
      H := new Word[5];
      W := new Word[80];
      new;
      Init();
    }

    /** shaInit. */
    method Init()
      requires H != W && H.Length == 5 && W.Length == 80
      modifies this, H, W
      ensures Valid() && Message() == []
    {
      hide *;
      lenW, sizeHi, sizeLo := 0, 0, 0;
      H[0], H[1], H[2], H[3], H[4] := 0x67452301, 0xefcdab89, 0x98badcfe, 0x10325476, 0xc3d2e1f0;
      for i := 0 to 80
        modifies W
      {
        W[i] := 0;
      }
      done, part, stale := [], [], W[..16];
      assert W[..][..16] == W[..16];
      FilledEmpty(W[..]);
      HashIs();
      FoldNothing();
      assert |done| + |part| == 0 && done + part == [];
      ValidIs();
    }

    lemma {:induction false} ValidIs()
      ensures Valid() <==>
              && H != W && H.Length == 5 && W.Length == 80 && lenW == |part| < 64
              && Filled(W[..], stale, part)
              && sizeHi < TWO_TO_THE_32 && sizeLo < TWO_TO_THE_32 && sizeHi * TWO_TO_THE_32 + sizeLo == BitLength(|done| + |part|)
              && |done| % 64 == 0 && Hash() == Fold(done)
      ensures Message() == done + part
    {
      hide Filled; hide BitLength; hide Fold;
    }

    /** shaHashBlock. */
    method HashBlock()
      requires H != W && H.Length == 5 && W.Length == 80
      modifies H, W
      ensures Hash() == CompressWords(old(Hash()), old(W[..16]))
    {
      hide *;
      ghost var block := W[..16];
      ghost var h := Hash();
      ScheduleBase(block);
      for t := 16 to 80
        modifies W
        invariant W[..t] == Schedule(block, t)
      {
        ScheduleStep(block, W[..t], t);
        W[t] := ShaRotl1(W[t - 3] ^ W[t - 8] ^ W[t - 14] ^ W[t - 16]);
      }
      ghost var w := W[..];
      assert w == W[..80];
      HashIs();
      var A, B, C, D, E := RunRounds();
      H[0], H[1], H[2], H[3], H[4] := Plus(H[0], A), Plus(H[1], B), Plus(H[2], C), Plus(H[3], D), Plus(H[4], E);
      HashIs();
      CompressIs(h, block, State(A, B, C, D, E));
    }

    /** The four loops of shaHashBlock over the rounds. */
    method RunRounds() returns (A: Word, B: Word, C: Word, D: Word, E: Word)
      requires H.Length == 5 && W.Length == 80
      ensures State(A, B, C, D, E) == Rounds(Hash(), W[..], 80)
    {
      hide *;
      ghost var h, w := Hash(), W[..];
      HashIs();
      A, B, C, D, E := H[0], H[1], H[2], H[3], H[4];
      RoundsBase(h, w);
      for t := 0 to 20
        invariant State(A, B, C, D, E) == Rounds(h, w, t)
      {
        RoundStep(h, w, t);
        StateIs(A, B, C, D, E);
        ShaLoops(t, B, C, D);
        var temp := ShaSum(ShaRotl5(A), ShaChoose(B, C, D), E, W[t], 0x5a827999);
        E, D, C, B, A := D, C, ShaRotl30(B), A, temp;
      }
      for t := 20 to 40
        invariant State(A, B, C, D, E) == Rounds(h, w, t)
      {
        RoundStep(h, w, t);
        StateIs(A, B, C, D, E);
        ShaLoops(t, B, C, D);
        var temp := ShaSum(ShaRotl5(A), ShaParity(B, C, D), E, W[t], 0x6ed9eba1);
        E, D, C, B, A := D, C, ShaRotl30(B), A, temp;
      }
      for t := 40 to 60
        invariant State(A, B, C, D, E) == Rounds(h, w, t)
      {
        RoundStep(h, w, t);
        StateIs(A, B, C, D, E);
        ShaLoops(t, B, C, D);
        var temp := ShaSum(ShaRotl5(A), ShaMajority(B, C, D), E, W[t], 0x8f1bbcdc);
        E, D, C, B, A := D, C, ShaRotl30(B), A, temp;
      }
      for t := 60 to 80
        invariant State(A, B, C, D, E) == Rounds(h, w, t)
      {
        RoundStep(h, w, t);
        StateIs(A, B, C, D, E);
        ShaLoops(t, B, C, D);
        var temp := ShaSum(ShaRotl5(A), ShaParity(B, C, D), E, W[t], 0xca62c1d6);
        E, D, C, B, A := D, C, ShaRotl30(B), A, temp;
      }
    }

    /** What the loop of shaUpdate does with a byte, but for the length. */
    method Store(b: Byte)
      requires H != W && H.Length == 5 && W.Length == 80 && lenW == |part| < 64 && Filled(W[..], stale, part)
      requires |done| % 64 == 0 && Hash() == Fold(done)
      modifies `lenW, `done, `part, `stale, H, W
      ensures lenW == |part| < 64 && Filled(W[..], stale, part) && |done| % 64 == 0 && Hash() == Fold(done)
      ensures done + part == old(done + part) + [b]
    {
      hide *;
      ghost var w, p := W[..], part;
      FilledMore(w, stale, p, b);
      W[lenW / 4] := Push(W[lenW / 4], b);
      assert W[..] == w[|p| / 4 := Push(w[|p| / 4], b)];
      lenW := lenW + 1;
      part := p + [b];
      assert done + part == done + p + [b];
      if lenW % 64 == 0 { BlockFull(); }
    }

    method BlockFull()
      requires H != W && H.Length == 5 && W.Length == 80 && |part| == 64 && Filled(W[..], stale, part)
      requires |done| % 64 == 0 && Hash() == Fold(done)
      modifies `lenW, `done, `part, `stale, H, W
      ensures lenW == |part| == 0 && Filled(W[..], stale, part) && |done| % 64 == 0 && Hash() == Fold(done)
      ensures done + part == old(done + part)
    {
      hide *;
      FilledFull(W[..], stale, part);
      assert W[..][..16] == W[..16];
      HashBlock();
      lenW := 0;
      FoldAppend(done, part);
      done, part, stale := done + part, [], W[..16];
      assert done + part == done;
      FilledEmpty(W[..]);
      assert W[..][..16] == W[..16];
    }

    /** The body of the loop of shaUpdate. */
    method FeedByte(b: Byte)
      requires Valid()
      modifies this, H, W
      ensures Valid() && Message() == old(Message()) + [b]
    {
      hide *;
      ValidIs();
      Store(b);
      ValidIs();
      assert |done + part| == |done| + |part|;
      CounterStep(sizeHi, sizeLo, |done| + |part| - 1);
      Modulus();
      sizeLo := (sizeLo + 8) % TWO_TO_THE_32;
      sizeHi := (sizeHi + if sizeLo < 8 then 1 else 0) % TWO_TO_THE_32;
      ValidIs();
    }

    /** shaUpdate. */
    method Update(data: seq<Byte>)
      requires Valid()
      modifies this, H, W
      ensures Valid() && Message() == old(Message()) + data
    {
      hide *;
      var i := 0;
      ghost var m := Message();
      assert m + data[..0] == m;
      while i < |data|
        invariant i <= |data| && Valid() && Message() == m + data[..i]
      {
        FeedByte(data[i]);
        assert m + data[..i] + [data[i]] == m + data[..i + 1];
        i := i + 1;
      }
      assert data[..i] == data;
    }

    /** The padding of shaFinal, up to the length. */
    method Pad()
      requires Valid()
      modifies this, H, W
      ensures Valid() && Message() == PaddedBy(old(Message()), ZeroCount(|old(Message())|))
    {
      hide *;
      ghost var m := Message();
      Update([0x80]);
      ghost var z := 0;
      PaddedMore(m, 0);
      LengthBelow();
      while lenW != 56
        invariant Valid() && Message() == PaddedBy(m, z) && z <= ZeroCount(|m|) && lenW == |Message()| % 64
        decreases ZeroCount(|m|) - z
      {
        PaddedMore(m, z);
        NotYet(|m|, z);
        Update([0]);
        LengthBelow();
        z := z + 1;
      }
      PaddedMore(m, z);
      NotYet(|m|, z);
    }

    /** shaFinal: the digest of the message so far, and a context that is as good as new. */
    method Final(hashout: array<Byte>)
      requires Valid() && hashout.Length == 20
      modifies this, H, W, hashout
      ensures hashout[..] == Digest(old(Message())) && Valid() && Message() == []
    {
      hide *;
      ghost var m := Message();
      LengthBelow();
      HalfBytes(sizeHi, sizeLo);
      PaddedIs(m);
      var padlen := [ByteAt(sizeHi, 0x100_0000), ByteAt(sizeHi, 0x1_0000), ByteAt(sizeHi, 0x100), ByteAt(sizeHi, 1),
                     ByteAt(sizeLo, 0x100_0000), ByteAt(sizeLo, 0x1_0000), ByteAt(sizeLo, 0x100), ByteAt(sizeLo, 1)];
      Pad();
      Update(padlen);
      LengthBelow();
      AtBlockEnd();
      Output(hashout);
      Init();
    }

    lemma {:induction false} AtBlockEnd()
      requires Valid() && lenW == 0
      ensures |Message()| % 64 == 0 && Hash() == Fold(Message()) && H != W && H.Length == 5 && W.Length == 80
    {
      assert done + part == done;
    }

    /** The loop of shaFinal that writes the digest and shifts the words out. */
    method Output(hashout: array<Byte>)
      requires H.Length == 5 && hashout.Length == 20
      modifies H, hashout
      ensures hashout[..] == StateBytes(old(Hash()))
    {
      hide *;
      ghost var h := Hash();
      HashIs();
      WordsOfState(h);
      ShiftedMore(h.a, 0);
      ShiftedMore(h.b, 0);
      ShiftedMore(h.c, 0);
      ShiftedMore(h.d, 0);
      ShiftedMore(h.e, 0);
      NoneOut();
      for i := 0 to 20
        invariant hashout[..i] == StateBytes(h)[..i]
        invariant forall k :: 0 <= k < 5 ==> H[k] == Shifted(StateWord(h, k), BytesOut(i, k))
      {
        OutAt(i);
        ShiftedMore(StateWord(h, i / 4), i % 4);
        ShiftedTop(StateWord(h, i / 4), i % 4);
        StateByteAt(h, i);
        hashout[i] := TopByte(H[i / 4]);
        H[i / 4] := ShiftOut(H[i / 4]);
        assert hashout[..i + 1] == hashout[..i] + [hashout[i]];
      }
      assert hashout[..] == hashout[..20];
    }

    lemma {:induction false} LengthBelow()
      requires Valid()
      ensures lenW < 64 && lenW == |Message()| % 64
      ensures sizeHi < TWO_TO_THE_32 && sizeLo < TWO_TO_THE_32 && sizeHi * TWO_TO_THE_32 + sizeLo == BitLength(|Message()|)
    {
      hide *;
      ValidIs();
      BlockPart(|done|, lenW);
      assert |Message()| == |done| + lenW;
    }

    lemma {:induction false} HashIs()
      requires H.Length == 5
      ensures Hash() == State(H[0], H[1], H[2], H[3], H[4])
    {
    }
  }

  lemma {:induction false} WordsOfState(s: State)
    ensures StateWord(s, 0) == s.a && StateWord(s, 1) == s.b && StateWord(s, 2) == s.c && StateWord(s, 3) == s.d && StateWord(s, 4) == s.e
  {
  }

  lemma {:induction false} NoneOut()
    ensures forall k :: 0 <= k < 5 ==> BytesOut(0, k) == 0
  {
  }

  lemma {:induction false} OutAt(i: nat)
    requires i < 20
    ensures BytesOut(i, i / 4) == i % 4 && forall k :: 0 <= k < 5 ==> BytesOut(i + 1, k) == if k == i / 4 then i % 4 + 1 else BytesOut(i, k)
  {
  }

  lemma {:induction false} BlockPart(n: nat, k: nat)
    requires n % 64 == 0 && k < 64
    ensures (n + k) % 64 == k
  {
  }

  lemma {:induction false} Modulus()
    ensures TWO_TO_THE_32 > 0
  {
  }

  lemma {:induction false} FoldNothing()
    ensures Fold([]) == State(0x67452301, 0xefcdab89, 0x98badcfe, 0x10325476, 0xc3d2e1f0) && BitLength(0) == 0 < TWO_TO_THE_32
  {
  }

  lemma {:induction false} StateIs(a: Word, b: Word, c: Word, d: Word, e: Word)
    ensures var s := State(a, b, c, d, e); s.a == a && s.b == b && s.c == c && s.d == d && s.e == e
  {
  }

  lemma {:induction false} ScheduleBase(block: seq<Word>)
    requires |block| == 16
    ensures Schedule(block, 16) == block
  {
  }

  lemma {:induction false} RoundsBase(h: State, w: seq<Word>)
    ensures Rounds(h, w, 0) == h
  {
  }

  lemma {:induction false} CompressIs(h: State, block: seq<Word>, s: State)
    requires |block| == 16 && s == Rounds(h, Schedule(block, 80), 80)
    ensures CompressWords(h, block) == State(Plus(h.a, s.a), Plus(h.b, s.b), Plus(h.c, s.c), Plus(h.d, s.d), Plus(h.e, s.e))
  {
    hide Rounds; hide Schedule; hide Plus;
  }
}
