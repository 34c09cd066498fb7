/** The pool that strings are built in: blocks of growing size, and a list of free blocks to use again. */
module StringPools {
  import opened Bytes
  import opened Utf8Copy

  const INIT_BLOCK_SIZE := 1024
  const MAX_BLOCK_SIZE := 0x7FFF_FFFF - 12  // an int, less the header of a block

  type Block = array<byte>

  /** A finished string: where it is and what it holds. */
  datatype Finished = Finished(block: Block, from: nat, content: seq<byte>)

  ghost predicate Distinct(all: seq<Block>)
  {
    forall i, j :: 0 <= i < j < |all| ==> all[i] != all[j]
  }

  /** A finished string stands in a block in use, before the string being built. */
  ghost predicate Stands(f: Finished, blocks: seq<Block>, start: nat)
    reads f.block
  {
    && f.block in blocks && f.from + |f.content| <= f.block.Length
    && f.block[f.from..f.from + |f.content|] == f.content
    && (f.block == blocks[0] ==> f.from + |f.content| <= start)
  }

  lemma SliceMore(before: seq<byte>, text: seq<byte>, from: nat, i: nat)
    requires from <= i < |text|
    ensures before + text[from..i + 1] == before + text[from..i] + [text[i]]
  {
  }

  class StringPool {
    var blocks: seq<Block>
    var freeBlocks: seq<Block>
    var start: nat
    var ptr: nat
    ghost var finished: seq<Finished>
    ghost var repr: set<Block>

    ghost predicate Layout()
      reads this
    {
      && (forall b <- blocks :: b in repr && b !in freeBlocks && b.Length > 0)
      && (forall b <- freeBlocks :: b in repr && b.Length > 0)
      && Distinct(blocks) && Distinct(freeBlocks)
      && (if blocks == [] then start == 0 && ptr == 0 else start <= ptr <= blocks[0].Length)
    }

    /** Every finished string that is not empty is where it was, unchanged. */
    ghost predicate Kept()
      reads this, repr
    {
      forall f <- finished :: f.content != [] ==> f.block in repr && Stands(f, blocks, start)
    }

    ghost predicate Valid()
      reads this, repr
    {
      Layout() && Kept()
    }

    /** The string being built. */
    ghost function Current(): seq<byte>
      requires Layout()
      reads this, repr
    {
      if blocks == [] then [] else blocks[0][start..ptr]
    }

    /** How much the string being built can hold. */
    function Room(): int
      reads this
    {
      if blocks == [] then 0 else blocks[0].Length - start
    }

    constructor ()
      ensures Valid() && Current() == [] && finished == [] && blocks == [] && freeBlocks == []
    {
      blocks, freeBlocks, start, ptr, finished, repr := [], [], 0, 0, [], {};
    }

    /** The first block of a pool comes from the free blocks. */
    method TakeFree()
      requires Valid() && blocks == [] && freeBlocks != []
      modifies this`blocks, this`freeBlocks
      ensures Valid() && Room() > 0 && Current() == []
    {
      assert freeBlocks[0] in freeBlocks;
      blocks, freeBlocks := [freeBlocks[0]], freeBlocks[1..];
    }

    /** The string being built moves to a larger free block. */
    method MoveToFree()
      requires Valid() && blocks != [] && freeBlocks != [] && Room() < freeBlocks[0].Length
      modifies this`blocks, this`freeBlocks, this`start, this`ptr, repr
      ensures Valid() && Room() > old(Room()) && Current() == old(Current())
    {
      var block, from := freeBlocks[0], blocks[0];
      assert block in freeBlocks && from in blocks;
      Copy(from, start, block, from.Length - start);
      blocks, freeBlocks := [block] + blocks, freeBlocks[1..];
      ptr, start := ptr - start, 0;
    }

    /** A string that has its block to itself gets a block of twice the size in its place. */
    method GrowInPlace(memory: bool) returns (ok: bool)
      requires Valid() && blocks != [] && start == 0
      modifies this`blocks, this`repr
      ensures Valid() && Current() == old(Current()) && fresh(repr - old(repr))
      ensures ok ==> Room() == 2 * old(Room())
      ensures ok <==> memory && 2 * old(Room()) <= MAX_BLOCK_SIZE
      ensures !ok ==> blocks == old(blocks)
    {
      var from := blocks[0];
      var size := 2 * from.Length;
      if size > MAX_BLOCK_SIZE || !memory {
        return false;
      }
      assert from in blocks;
      var block := new byte[size];
      Copy(from, 0, block, from.Length);
      blocks, repr := [block] + blocks[1..], repr + {block};
      return true;
    }

    /** The string being built moves to a new block. */
    method AddBlock(memory: bool) returns (ok: bool)
      requires Valid()
      modifies this`blocks, this`repr, this`start, this`ptr
      ensures Valid() && Current() == old(Current()) && fresh(repr - old(repr))
      ensures ok ==> Room() > old(Room())
      ensures ok <==> memory && 2 * old(Room()) <= MAX_BLOCK_SIZE
      ensures !ok ==> blocks == old(blocks) && start == old(start) && ptr == old(ptr)
    {
      var size := if Room() < INIT_BLOCK_SIZE then INIT_BLOCK_SIZE else 2 * Room();
      if size > MAX_BLOCK_SIZE || !memory {
        return false;
      }
      var block := new byte[size];
      if blocks != [] {
        assert blocks[0] in blocks;
        Copy(blocks[0], start, block, ptr - start);
      }
      blocks, repr := [block] + blocks, repr + {block};
      ptr, start := ptr - start, 0;
      return true;
    }

    /** Makes more room for the string being built, without changing it. */
    method Grow(memory: bool) returns (ok: bool)
      requires Valid()
      modifies this`blocks, this`freeBlocks, this`start, this`ptr, this`repr, repr
      ensures Valid() && Current() == old(Current()) && fresh(repr - old(repr))
      ensures ok ==> Room() > old(Room())
      ensures !ok ==> blocks == old(blocks) && (!memory || 2 * Room() > MAX_BLOCK_SIZE)
    {
      if freeBlocks != [] {
        if blocks == [] {
          TakeFree();
          return true;
        }
        if Room() < freeBlocks[0].Length {
          MoveToFree();
          return true;
        }
      }
      if blocks != [] && start == 0 {
        ok := GrowInPlace(memory);
      } else {
        ok := AddBlock(memory);
      }
    }

    /** The place behind the string being built. */
    ghost predicate HasRoom()
      reads this
    {
      blocks != [] && ptr < blocks[0].Length
    }

    method AppendChar(c: byte, memory: bool) returns (ok: bool)
      requires Valid()
      modifies this`blocks, this`freeBlocks, this`start, this`ptr, this`repr, repr
      ensures Valid() && fresh(repr - old(repr))
      ensures Current() == if ok then old(Current()) + [c] else old(Current())
      ensures !ok ==> !memory || 2 * Room() > MAX_BLOCK_SIZE
    {
      if blocks == [] || ptr == blocks[0].Length {
        ok := Grow(memory);
        if !ok {
          return;
        }
      }
      Put(c);
      return true;
    }

    method Put(c: byte)
      requires Valid() && HasRoom()
      modifies this`ptr, blocks[0]
      ensures Valid() && Current() == old(Current()) + [c]
    {
      assert blocks[0] in blocks;
      blocks[0][ptr] := c;
      ptr := ptr + 1;
    }

    /** Ends the string being built; it stays where it is. */
    method Finish()
      requires Valid() && blocks != []
      modifies this`start, this`finished
      ensures Valid() && Current() == []
      ensures finished == old(finished) + [Finished(blocks[0], old(start), old(Current()))]
    {
      finished := finished + [Finished(blocks[0], start, Current())];
      start := ptr;
    }

    /** Drops the string being built. */
    method Discard()
      requires Valid()
      modifies this`ptr
      ensures Valid() && Current() == []
    {
      ptr := start;
    }

    /** Gives up all strings; their blocks become free. */
    method Clear()
      requires Valid()
      modifies this`blocks, this`freeBlocks, this`start, this`ptr, this`finished
      ensures Valid() && Current() == [] && finished == [] && blocks == []
      ensures forall b :: b in old(blocks) || b in old(freeBlocks) <==> b in freeBlocks
    {
      var free, p := freeBlocks, blocks;
      if free == [] {
        free := blocks;
      } else {
        while p != []
          invariant Distinct(p) && Distinct(free) && forall b <- p :: b in repr && b !in free && b.Length > 0
          invariant forall b <- free :: b in repr && b.Length > 0
          invariant forall b :: b in blocks || b in freeBlocks <==> b in p || b in free
          decreases |p|
        {
          assert p[0] in p;
          free := [p[0]] + free;
          p := p[1..];
        }
      }
      blocks, freeBlocks, start, ptr, finished := [], free, 0, 0, [];
    }

    /** Copies part of a text behind the string being built. */
    method CopyIn(text: seq<byte>, from: nat, cut: nat)
      requires Valid() && blocks != [] && from <= cut <= |text| && ptr + (cut - from) <= blocks[0].Length
      modifies this`ptr, blocks[0]
      ensures Valid() && Current() == old(Current()) + text[from..cut]
    {
      var i := from;
      while i < cut
        invariant from <= i <= cut && Valid() && Current() == old(Current()) + text[from..i]
        invariant ptr == old(ptr) + (i - from)
      {
        SliceMore(old(Current()), text, from, i);
        Put(text[i]);
        i := i + 1;
      }
    }

    /** The free places behind the string being built. */
    function Free(): int
      reads this
    {
      if blocks == [] then 0 else blocks[0].Length - ptr
    }

    /** Copies as many whole characters as fit. */
    method AppendSome(text: seq<byte>, p: nat) returns (cut: nat, exhausted: bool)
      requires Valid() && WellFormed(text) && blocks != [] && p < |text| && Boundary(text, p)
      modifies this`ptr, blocks[0]
      ensures Valid() && p <= cut <= |text| && Current() == old(Current()) + text[p..cut] && ptr == old(ptr) + (cut - p)
      ensures Boundary(text, cut) && (exhausted <==> |text| - p > old(Free()))
      ensures !exhausted ==> cut == |text|
      ensures exhausted && cut == p ==> old(Free()) < 4
    {
      exhausted := |text| - p > Free();
      cut := Trim(text, p, if exhausted then p + Free() else |text|);
      FirstFits(text, p, if exhausted then p + Free() else |text|, cut);
      CopyIn(text, p, cut);
    }

    /**
     Appends a well-formed text, copying as many whole characters as fit and making room for the others. It
     ends for every size of the blocks.
     */
    method Append(text: seq<byte>, memory: nat -> bool) returns (ok: bool)
      requires Valid() && WellFormed(text)
      modifies this`blocks, this`freeBlocks, this`start, this`ptr, this`repr, repr
      ensures Valid() && fresh(repr - old(repr))
      ensures ok ==> Current() == old(Current()) + text
      ensures !ok ==> old(Current()) <= Current() <= old(Current()) + text
      ensures !ok ==> (exists n: nat :: !memory(n)) || 2 * Room() > MAX_BLOCK_SIZE
    {
      ok := true;
      if blocks == [] {
        ok := Grow(memory(0));
        if !ok {
          return;
        }
      }
      var p: nat, calls: nat := 0, 1;
      ghost var before := Current();
      while p < |text|
        invariant p <= |text| && Boundary(text, p) && Valid() && blocks != [] && fresh(repr - old(repr))
        invariant Current() == before + text[..p]
        decreases |text| - p, if Free() < 4 then 4 - Free() else 0
      {
        var cut, exhausted := AppendSome(text, p);
        MoreText(before, text, p, cut);
        Prefixes(before, text, cut);
        p := cut;
        if exhausted {
          ok := Grow(memory(calls));
          calls := calls + 1;
          if !ok {
            return;
          }
        }
      }
      Prefixes(before, text, p);
      return true;
    }
  }

  /** With four free places the next character fits. */
  lemma FirstFits(text: seq<byte>, p: nat, lim: nat, cut: nat)
    requires WellFormed(text) && p < |text| && Boundary(text, p) && Greatest(text, p, lim, cut) && lim <= |text|
    ensures cut == p ==> lim < p + 4 && lim < |text|
    ensures lim == |text| ==> cut == |text|
  {
    assert WholeAt(text, p);
    assert Boundary(text, p + LeadLength(text[p])) && Boundary(text, |text|);
  }

  lemma Prefixes(before: seq<byte>, text: seq<byte>, p: nat)
    requires p <= |text|
    ensures before <= before + text[..p] <= before + text
    ensures p == |text| ==> before + text[..p] == before + text
  {
  }

  lemma MoreText(before: seq<byte>, text: seq<byte>, p: nat, cut: nat)
    requires p <= cut <= |text|
    ensures before + text[..p] + text[p..cut] == before + text[..cut]
  {
  }

  /** Copies n bytes to the start of another block. */
  method Copy(from: Block, start: nat, to: Block, n: nat)
    requires start + n <= from.Length && n <= to.Length && from != to
    modifies to
    ensures to[..n] == from[start..start + n]
  {
    for i := 0 to n
      invariant to[..i] == from[start..start + i]
    {
      to[i] := from[start + i];
    }
  }
}
