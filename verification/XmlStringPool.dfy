/**
 The STRING_POOL of libjabber/xmlparse.c: strings are built up at the end of a
 block, and a block that is full is made longer, or the string under
 construction goes to another one.

 `memory` holds every block that is allocated, by its address.
 */
module XmlStringPool {

  const INIT_BLOCK_SIZE := 1024

  datatype Pointer = Null | At(block: nat, offset: nat)

  /** The difference of two pointers into one block. */
  function Minus(p: Pointer, q: Pointer): int
    requires (p == Null <==> q == Null) && (p.At? ==> p.block == q.block)
  {
    if p == Null then 0 else p.offset - q.offset
  }

  /** A finished string and where it is. */
  datatype Stored = Stored(block: nat, offset: nat, text: string)

  type Memory = map<nat, seq<char>>

  predicate Holds(memory: Memory, f: Stored)
  {
    f.block in memory && f.offset + |f.text| <= |memory[f.block]| && memory[f.block][f.offset..f.offset + |f.text|] == f.text
  }

  ghost function Count(l: seq<nat>): multiset<nat> { multiset(l) }

  /** Every block is on one of the lists, once. */
  ghost predicate Listed(memory: Memory, blocks: seq<nat>, freeBlocks: seq<nat>)
  {
    forall b: nat :: Count(blocks + freeBlocks)[b] == if b in memory then 1 else 0
  }

  /** A finished string that is not empty is in a block of the pool, and in the first one in front of the string under construction. */
  predicate Kept(memory: Memory, blocks: seq<nat>, start: nat, f: Stored)
  {
    && f.text != "" && f.block in blocks && Holds(memory, f)
    && (blocks != [] && f.block == blocks[0] ==> f.offset + |f.text| <= start)
  }

  /** What the lists say about single blocks. */
  lemma {:induction false} ListedFacts(memory: Memory, blocks: seq<nat>, freeBlocks: seq<nat>)
    requires Listed(memory, blocks, freeBlocks)
    ensures forall b :: b in blocks || b in freeBlocks ==> b in memory
    ensures forall b :: b in blocks ==> b !in freeBlocks
    ensures blocks != [] ==> blocks[0] !in blocks[1..]
    ensures freeBlocks != [] ==> freeBlocks[0] !in freeBlocks[1..]
  {
    var all := blocks + freeBlocks;
    assert multiset(all) == multiset(blocks) + multiset(freeBlocks);
    forall b: nat | b in blocks || b in freeBlocks ensures b in memory && !(b in blocks && b in freeBlocks) {
      assert Count(all)[b] == Count(blocks)[b] + Count(freeBlocks)[b];
      assert b in blocks ==> Count(blocks)[b] > 0;
      assert b in freeBlocks ==> Count(freeBlocks)[b] > 0;
    }
    if blocks != [] {
      assert blocks == [blocks[0]] + blocks[1..];
      assert Count(all)[blocks[0]] <= 1;
    }
    if freeBlocks != [] {
      assert freeBlocks == [freeBlocks[0]] + freeBlocks[1..];
      assert Count(all)[freeBlocks[0]] <= 1;
    }
  }

  /** The same blocks on the lists in another order. */
  lemma {:induction false} ListedAgain(memory: Memory, then_: Memory, blocks: seq<nat>, freeBlocks: seq<nat>, blocks': seq<nat>, freeBlocks': seq<nat>)
    requires Listed(memory, blocks, freeBlocks) && memory.Keys == then_.Keys
    requires multiset(blocks) + multiset(freeBlocks) == multiset(blocks') + multiset(freeBlocks')
    ensures Listed(then_, blocks', freeBlocks')
  {
    assert multiset(blocks + freeBlocks) == multiset(blocks' + freeBlocks');
    forall b: nat ensures Count(blocks' + freeBlocks')[b] == if b in then_ then 1 else 0 {
      assert Count(blocks + freeBlocks)[b] == if b in memory then 1 else 0;
      assert b in memory <==> b in then_.Keys;
    }
  }

  lemma {:induction false} ListedMore(memory: Memory, blocks: seq<nat>, freeBlocks: seq<nat>, b: nat, bytes: seq<char>)
    requires Listed(memory, blocks, freeBlocks) && b !in memory
    ensures Listed(memory[b := bytes], [b] + blocks, freeBlocks)
  {
    var all := blocks + freeBlocks;
    assert [b] + blocks + freeBlocks == [b] + all;
    forall x: nat ensures Count([b] + blocks + freeBlocks)[x] == if x in memory[b := bytes] then 1 else 0 {
      assert Count(all)[x] == if x in memory then 1 else 0;
    }
  }

  lemma {:induction false} ListedLess(memory: Memory, blocks: seq<nat>, freeBlocks: seq<nat>)
    requires Listed(memory, blocks, freeBlocks) && blocks != []
    ensures Listed(memory - {blocks[0]}, blocks[1..], freeBlocks)
  {
    var all := blocks[1..] + freeBlocks;
    assert blocks + freeBlocks == [blocks[0]] + all;
    forall x: nat ensures Count(all)[x] == if x in memory - {blocks[0]} then 1 else 0 {
      assert Count(blocks + freeBlocks)[x] == if x in memory then 1 else 0;
    }
  }

  class StringPool {
    var memory: Memory
    var nextAddress: nat
    var blocks: seq<nat>
    var freeBlocks: seq<nat>
    var start: Pointer
    var ptr: Pointer
    var end: Pointer
    /** The strings finished since the pool was last cleared, but for empty ones. */
    ghost var finished: seq<Stored>

    ghost predicate Valid()
      reads this
    {
      && Listed(memory, blocks, freeBlocks)
      && (forall b :: b in memory ==> b < nextAddress && memory[b] != [])
      && (if blocks == [] then start == ptr == end == Null
          else blocks[0] in memory && start.At? && ptr.At? && end == At(blocks[0], |memory[blocks[0]]|)
               && start.block == ptr.block == blocks[0] && start.offset <= ptr.offset <= end.offset)
      && forall i :: 0 <= i < |finished| ==> Kept(memory, blocks, Offset(start), finished[i])
    }

    function Offset(p: Pointer): nat { if p == Null then 0 else p.offset }

    /** The string under construction. */
    ghost function Building(): string
      requires Valid()
      reads this
    {
      if start == Null then "" else memory[start.block][start.offset..ptr.offset]
    }

    /** How many characters it can still grow by where it is. */
    ghost function Room(): int
      requires Valid()
      reads this
    {
      Minus(end, ptr)
    }

    /** poolInit. */
    constructor ()
      ensures Valid() && Building() == "" && finished == [] && memory == map[]
    {
      memory, nextAddress, blocks, freeBlocks, start, ptr, end, finished := map[], 0, [], [], Null, Null, Null, [];
    }

    /** A new block; what is in it is not said. */
    method Malloc(size: nat) returns (b: nat)
      requires forall b :: b in memory ==> b < nextAddress
      modifies `memory, `nextAddress
      ensures b !in old(memory) && b in memory && |memory[b]| == size && memory == old(memory)[b := memory[b]]
      ensures forall b :: b in memory ==> b < nextAddress
    {
      b := nextAddress;
      nextAddress := nextAddress + 1;
      memory := memory[b := seq(size, _ => ' ')];
    }

    method Free(b: nat)
      requires b in memory
      modifies `memory
      ensures memory == old(memory) - {b}
    {
      memory := memory - {b};
    }

    /** The string under construction goes to the front of block `b`; `n` characters are copied. */
    method MoveTo(b: nat, n: nat)
      requires if blocks == [] then n == 0 && start == ptr == Null
               else start.At? && ptr.At? && start.block == ptr.block && start.block in memory && start.block != b
                    && start.offset <= ptr.offset <= start.offset + n <= |memory[start.block]|
      requires b in memory && n < |memory[b]|
      modifies `memory, `blocks, `start, `ptr, `end
      ensures b in memory && |memory[b]| == |old(memory)[b]| && memory == old(memory)[b := memory[b]]
      ensures blocks == [b] + old(blocks) && start == At(b, 0) && end == At(b, |memory[b]|)
      ensures ptr == At(b, if old(start) == Null then 0 else old(ptr).offset - old(start).offset) && ptr.offset <= n
      ensures memory[b][..ptr.offset] == if old(start) == Null then "" else old(memory)[old(start).block][old(start).offset..old(ptr).offset]
    {
      if start != Null {
        memory := memory[b := memory[start.block][start.offset..start.offset + n] + memory[b][n..]];
        ptr := At(b, Minus(ptr, start));
      } else {
        ptr := At(b, 0);
      }
      blocks := [b] + blocks;
      start := At(b, 0);
      end := At(b, |memory[b]|);
    }

    /** poolGrow: the string under construction is kept and gets more room, and no finished one moves. */
    method Grow()
      requires Valid()
      modifies this
      ensures Valid() && Building() == old(Building()) && Room() > old(Room()) && finished == old(finished)
    {
      hide Listed; hide Kept;
      ListedFacts(memory, blocks, freeBlocks);
      if freeBlocks != [] && (start == Null || Minus(end, start) < |memory[freeBlocks[0]]|) {
        MoveToFree();
      } else if blocks != [] && start == At(blocks[0], 0) {
        Reallocate();
      } else {
        MoveToNew();
      }
    }

    method MoveToFree()
      requires Valid() && freeBlocks != [] && freeBlocks[0] in memory && Minus(end, start) < |memory[freeBlocks[0]]|
      modifies this
      ensures Valid() && Building() == old(Building()) && Room() > old(Room()) && finished == old(finished)
    {
      hide Listed; hide Kept;
      ghost var was, wasBlocks, wasStart := memory, blocks, Offset(start);
      ListedFacts(memory, blocks, freeBlocks);
      var b := freeBlocks[0];
      assert b in freeBlocks && (blocks != [] ==> blocks[0] in blocks);
      MoveTo(b, Minus(end, start));
      ListedAgain(was, memory, wasBlocks, freeBlocks, blocks, freeBlocks[1..]) by {
        assert freeBlocks == [b] + freeBlocks[1..];
        assert memory.Keys == was.Keys;
      }
      freeBlocks := freeBlocks[1..];
      KeptBehind(was, memory, wasBlocks, b, wasStart, finished);
    }

    method Reallocate()
      requires Valid() && blocks != [] && start == At(blocks[0], 0)
      modifies this
      ensures Valid() && Building() == old(Building()) && Room() > old(Room()) && finished == old(finished)
    {
      hide Listed; hide Kept;
      ghost var was, wasBlocks := memory, blocks;
      ListedFacts(memory, blocks, freeBlocks);
      var b := blocks[0];
      var blockSize := Minus(end, start) * 2;
      var n := Malloc(blockSize);
      memory := memory[n := memory[b] + memory[n][|memory[b]|..]];
      Free(b);
      ListedLess(was, blocks, freeBlocks);
      ListedMore(was - {b}, blocks[1..], freeBlocks, n, memory[n]);
      assert memory == (was - {b})[n := memory[n]];
      blocks := [n] + blocks[1..];
      ptr := At(n, Minus(ptr, start));
      start := At(n, 0);
      end := At(n, blockSize);
      KeptElsewhere(was, memory, wasBlocks, blocks, finished);
    }

    method MoveToNew()
      requires Valid()
      modifies this
      ensures Valid() && Building() == old(Building()) && Room() > old(Room()) && finished == old(finished)
    {
      hide Listed; hide Kept;
      ghost var was, wasBlocks, wasStart := memory, blocks, Offset(start);
      ListedFacts(memory, blocks, freeBlocks);
      var blockSize := Minus(end, start);
      if blockSize < INIT_BLOCK_SIZE { blockSize := INIT_BLOCK_SIZE; } else { blockSize := blockSize * 2; }
      var b := Malloc(blockSize);
      MoveTo(b, Minus(ptr, start));
      ListedMore(was, wasBlocks, freeBlocks, b, memory[b]);
      KeptBehind(was, memory, wasBlocks, b, wasStart, finished);
    }

    /** poolAppendChar. */
    method AppendChar(c: char)
      requires Valid()
      modifies this
      ensures Valid() && Building() == old(Building()) + [c] && finished == old(finished)
    {
      hide Listed; hide Kept;
      if ptr == end { Grow(); }
      WriteChar(c);
    }

    method WriteChar(c: char)
      requires Valid() && Room() > 0
      modifies `memory, `ptr
      ensures Valid() && Building() == old(Building()) + [c]
    {
      hide Listed; hide Kept;
      ghost var was := memory;
      var b := ptr.block;
      var bytes := memory[b];
      memory := memory[b := bytes[ptr.offset := c]];
      ptr := At(b, ptr.offset + 1);
      assert memory.Keys == was.Keys;
      ListedAgain(was, memory, blocks, freeBlocks, blocks, freeBlocks);
      KeptBefore(was, memory, blocks, start.offset, finished);
      OneMore(bytes, memory[b], start.offset, ptr.offset - 1, c);
    }

    /** poolFinish. */
    method Finish()
      requires Valid()
      modifies `start, `finished
      ensures Valid() && Building() == ""
      ensures finished == old(finished) + if old(Building()) == "" then [] else [Stored(old(start).block, old(start).offset, old(Building()))]
    {
      hide Listed;
      ListedFacts(memory, blocks, freeBlocks);
      ghost var text := Building();
      KeptLonger(memory, blocks, Offset(start), Offset(ptr), finished);
      if text != "" { finished := finished + [Stored(start.block, start.offset, text)]; }
      start := ptr;
    }

    /** poolDiscard. */
    method Discard()
      requires Valid()
      modifies `ptr
      ensures Valid() && Building() == ""
    {
      ptr := start;
    }

    /** poolChop. */
    method Chop()
      requires Valid() && Building() != ""
      modifies `ptr
      ensures Valid() && Building() == old(Building())[..|old(Building())| - 1]
    {
      ptr := At(ptr.block, ptr.offset - 1);
    }

    /** poolCopyString: the copy, with its NUL, stays where it is. */
    method CopyString(s: string) returns (copy: Pointer)
      requires Valid() && Building() == ""
      modifies this
      ensures Valid() && Building() == "" && copy.At?
      ensures finished == old(finished) + [Stored(copy.block, copy.offset, s + ['\0'])]
    {
      for i := 0 to |s|
        invariant Valid() && Building() == s[..i] && finished == old(finished)
      {
        AppendChar(s[i]);
        assert s[..i] + [s[i]] == s[..i + 1];
      }
      assert s[..|s|] == s;
      AppendChar('\0');
      copy := start;
      Finish();
    }

    /** poolClear: the blocks are free, with nothing lost. */
    method Clear()
      requires Valid()
      modifies this
      ensures Valid() && memory == old(memory) && blocks == [] && finished == []
    {
      hide Listed; hide Kept;
      ghost var was := blocks;
      ghost var wasFree := freeBlocks;
      if freeBlocks == [] {
        freeBlocks := blocks;
      } else {
        var p := blocks;
        while p != []
          modifies `freeBlocks
          invariant multiset(p) + multiset(freeBlocks) == multiset(was) + multiset(wasFree)
        {
          assert p == [p[0]] + p[1..];
          freeBlocks := [p[0]] + freeBlocks;
          p := p[1..];
        }
      }
      ListedAgain(memory, memory, was, wasFree, [], freeBlocks);
      blocks, start, ptr, end, finished := [], Null, Null, Null, [];
    }

    /** poolDestroy: every block is freed, once. */
    method Destroy()
      requires Valid()
      modifies this
      ensures Valid() && memory == map[] && blocks == freeBlocks == [] && finished == []
    {
      hide Listed; hide Kept;
      while blocks != []
        modifies `blocks, `memory
        invariant Listed(memory, blocks, freeBlocks)
        decreases |blocks|
      {
        ListedFacts(memory, blocks, freeBlocks);
        ListedLess(memory, blocks, freeBlocks);
        var p := blocks[0];
        blocks := blocks[1..];
        Free(p);
      }
      ListedAgain(memory, memory, [], freeBlocks, freeBlocks, []);
      while freeBlocks != []
        modifies `freeBlocks, `memory
        invariant Listed(memory, freeBlocks, [])
        decreases |freeBlocks|
      {
        ListedFacts(memory, freeBlocks, []);
        ListedLess(memory, freeBlocks, []);
        var p := freeBlocks[0];
        freeBlocks := freeBlocks[1..];
        Free(p);
      }
      NoneListed(memory);
      start, ptr, end, finished := Null, Null, Null, [];
    }
  }

  lemma {:induction false} OneMore(was: seq<char>, now: seq<char>, from: nat, at: nat, c: char)
    requires from <= at < |was| && now == was[at := c]
    ensures now[from..at + 1] == was[from..at] + [c]
  {
  }

  lemma {:induction false} NoneListed(memory: Memory)
    requires Listed(memory, [], [])
    ensures memory == map[]
  {
    forall b: nat ensures b !in memory { assert Count([] + [])[b] == if b in memory then 1 else 0; }
  }

  /** A block came to the front, and its bytes changed. */
  lemma {:induction false} KeptBehind(memory: Memory, then_: Memory, blocks: seq<nat>, b: nat, start: nat, finished: seq<Stored>)
    requires b !in blocks && b in then_ && then_ == memory[b := then_[b]]
    requires forall i :: 0 <= i < |finished| ==> Kept(memory, blocks, start, finished[i])
    ensures forall i :: 0 <= i < |finished| ==> Kept(then_, [b] + blocks, 0, finished[i])
  {
    forall i | 0 <= i < |finished| ensures Kept(then_, [b] + blocks, 0, finished[i]) {
      assert Kept(memory, blocks, start, finished[i]);
    }
  }

  /** The first block has no finished string in it, and was replaced. */
  lemma {:induction false} KeptElsewhere(memory: Memory, then_: Memory, blocks: seq<nat>, blocks': seq<nat>, finished: seq<Stored>)
    requires blocks != [] && blocks' != [] && blocks'[1..] == blocks[1..] && blocks'[0] !in memory
    requires blocks'[0] in then_ && then_ == (memory - {blocks[0]})[blocks'[0] := then_[blocks'[0]]]
    requires forall i :: 0 <= i < |finished| ==> Kept(memory, blocks, 0, finished[i])
    ensures forall i :: 0 <= i < |finished| ==> Kept(then_, blocks', 0, finished[i])
  {
    forall i | 0 <= i < |finished| ensures Kept(then_, blocks', 0, finished[i]) {
      var f := finished[i];
      assert Kept(memory, blocks, 0, f);
      assert f.block != blocks[0];
      assert f.block in blocks[1..];
    }
  }

  /** Bytes behind the finished strings of the first block changed. */
  lemma {:induction false} KeptBefore(memory: Memory, then_: Memory, blocks: seq<nat>, start: nat, finished: seq<Stored>)
    requires blocks != [] && blocks[0] in memory && memory.Keys == then_.Keys && |memory[blocks[0]]| == |then_[blocks[0]]| >= start
    requires memory[blocks[0]][..start] == then_[blocks[0]][..start] && forall b :: b in memory && b != blocks[0] ==> then_[b] == memory[b]
    requires forall i :: 0 <= i < |finished| ==> Kept(memory, blocks, start, finished[i])
    ensures forall i :: 0 <= i < |finished| ==> Kept(then_, blocks, start, finished[i])
  {
    forall i | 0 <= i < |finished| ensures Kept(then_, blocks, start, finished[i]) {
      var f := finished[i];
      assert Kept(memory, blocks, start, f);
      if f.block == blocks[0] {
        var low, high := f.offset, f.offset + |f.text|;
        assert memory[blocks[0]][..start][low..high] == memory[blocks[0]][low..high];
        assert then_[blocks[0]][..start][low..high] == then_[blocks[0]][low..high];
      }
    }
  }

  lemma {:induction false} KeptLonger(memory: Memory, blocks: seq<nat>, start: nat, ptr: nat, finished: seq<Stored>)
    requires start <= ptr && forall i :: 0 <= i < |finished| ==> Kept(memory, blocks, start, finished[i])
    ensures forall i :: 0 <= i < |finished| ==> Kept(memory, blocks, ptr, finished[i])
  {
    forall i | 0 <= i < |finished| ensures Kept(memory, blocks, ptr, finished[i]) { assert Kept(memory, blocks, start, finished[i]); }
  }
}
