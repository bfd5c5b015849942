/** The list of RAM blocks in exec.c: `find_ram_offset` picks a place in the RAM address space, allocation and freeing
    keep the list sorted, and `qemu_get_ram_block` looks blocks up through a cache of the last one found. */
module RamBlocks {
  import opened Arith
  import opened Options

  /** 2^64, and the largest ram_addr_t */
  const WORD: nat := 0x1_0000_0000_0000_0000
  const RAM_ADDR_MAX: nat := WORD - 1

  datatype RamBlock = RamBlock(offset: nat, length: nat) {
    function End(): nat { offset + length }

    predicate Has(a: nat) { offset <= a < End() }

    /** addr - offset < length, on ram_addr_t */
    predicate Found(a: nat) { (a - offset) % WORD < length }
  }

  predicate Apart(a: RamBlock, b: RamBlock) { a.End() <= b.offset || b.End() <= a.offset }

  predicate NotShorter(a: RamBlock, b: RamBlock) { a.length >= b.length }

  ghost predicate BlockOk(b: RamBlock) { 0 < b.length && b.End() <= RAM_ADDR_MAX }

  /** Blocks are non-empty, within the address space and apart, and run from longest to shortest. */
  ghost predicate BlocksOk(blocks: seq<RamBlock>) {
    && (forall i {:trigger BlockOk(blocks[i])} | 0 <= i < |blocks| :: BlockOk(blocks[i]))
    && (forall i, j {:trigger Apart(blocks[i], blocks[j])} | 0 <= i < j < |blocks| :: Apart(blocks[i], blocks[j]))
    && (forall i, j {:trigger NotShorter(blocks[i], blocks[j])} | 0 <= i < j < |blocks| ::
       NotShorter(blocks[i], blocks[j]))
  }

  /** The unsigned test is the range test. */
  lemma FoundIsHas(b: RamBlock, a: nat)
    requires BlockOk(b) && a < WORD
    ensures b.Found(a) <==> b.Has(a)
  {
    if a < b.offset {
      assert (a - b.offset) % WORD == a - b.offset + WORD;
    }
  }

  // ---- Gaps -----------------------------------------------------------------------------------------------

  /** The lowest start of one of the first n blocks from `end` on, or the end of the address space */
  function Next(blocks: seq<RamBlock>, n: nat, end: nat): (next: nat)
    requires n <= |blocks|
    ensures next <= RAM_ADDR_MAX && forall j :: 0 <= j < n && blocks[j].offset >= end ==> next <= blocks[j].offset
    ensures next == RAM_ADDR_MAX || next >= end
  {
    if n == 0 then RAM_ADDR_MAX
    else
      var next := Next(blocks, n - 1, end);
      if blocks[n - 1].offset >= end then Min(next, blocks[n - 1].offset) else next
  }

  lemma {:induction false} NextStarts(blocks: seq<RamBlock>, n: nat, end: nat)
    requires n <= |blocks|
    ensures var next := Next(blocks, n, end);
            next == RAM_ADDR_MAX || exists j :: 0 <= j < n && blocks[j].offset == next
  {
    if n > 0 { NextStarts(blocks, n - 1, end); }
  }

  /** Free space behind block i */
  function Gap(blocks: seq<RamBlock>, i: nat): int
    requires i < |blocks|
  {
    Next(blocks, |blocks|, blocks[i].End()) - blocks[i].End()
  }

  /** The g bytes behind block i belong to no block, and behind them starts a block or the address space ends. */
  ghost predicate FreeBehind(blocks: seq<RamBlock>, i: nat, g: nat)
    requires i < |blocks|
  {
    var end := blocks[i].End();
    && end + g <= RAM_ADDR_MAX
    && (forall j, a: nat | 0 <= j < |blocks| && end <= a < end + g :: !blocks[j].Has(a))
    && (end + g == RAM_ADDR_MAX || exists j :: 0 <= j < |blocks| && blocks[j].offset == end + g)
  }

  /** The gap behind a block is the free space there, all of it. */
  lemma GapIsFreeBehind(blocks: seq<RamBlock>, i: nat, g: nat)
    requires BlocksOk(blocks) && i < |blocks|
    ensures Gap(blocks, i) == g <==> FreeBehind(blocks, i, g)
  {
    assert BlockOk(blocks[i]);
    var end, next := blocks[i].End(), Next(blocks, |blocks|, blocks[i].End());
    NextStarts(blocks, |blocks|, end);
    forall j, a: nat | 0 <= j < |blocks| && end <= a < next
      ensures !blocks[j].Has(a)
    {
      assert (i < j ==> Apart(blocks[i], blocks[j])) && (j < i ==> Apart(blocks[j], blocks[i]));
    }
    if FreeBehind(blocks, i, g) && next < end + g {
      var j :| 0 <= j < |blocks| && blocks[j].offset == next;
      assert BlockOk(blocks[j]) && blocks[j].Has(next);
    }
  }

  /** Of the first n gaps, gap i is large enough, and no other large enough one is smaller. */
  ghost predicate BestGap(blocks: seq<RamBlock>, n: nat, size: nat, i: nat)
    requires i < n <= |blocks|
  {
    && Gap(blocks, i) >= size
    && forall j :: 0 <= j < n && Gap(blocks, j) >= size ==>
       Gap(blocks, i) <= Gap(blocks, j) && (j < i ==> Gap(blocks, i) < Gap(blocks, j))
  }

  ghost predicate NoGap(blocks: seq<RamBlock>, n: nat, size: nat)
    requires n <= |blocks|
  {
    forall j :: 0 <= j < n ==> Gap(blocks, j) < size
  }

  /** A block put into a large enough gap is apart from all others. */
  lemma GapIsFree(blocks: seq<RamBlock>, i: nat, size: nat, j: nat)
    requires BlocksOk(blocks) && i < |blocks| && j < |blocks| && Gap(blocks, i) >= size
    ensures Apart(blocks[j], RamBlock(blocks[i].End(), size)) && blocks[i].End() + size <= RAM_ADDR_MAX
  {
    assert BlockOk(blocks[i]) && BlockOk(blocks[j]);
    assert (i < j ==> Apart(blocks[i], blocks[j])) && (j < i ==> Apart(blocks[j], blocks[i]));
  }

  /** The list with a new block in front of place i */
  function Inserted(blocks: seq<RamBlock>, i: nat, b: RamBlock): seq<RamBlock>
    requires i <= |blocks|
  {
    blocks[..i] + [b] + blocks[i..]
  }

  lemma InsertedOk(blocks: seq<RamBlock>, i: nat, b: RamBlock)
    requires BlocksOk(blocks) && i <= |blocks| && BlockOk(b) && forall j :: 0 <= j < |blocks| ==> Apart(blocks[j], b)
    requires (forall j :: 0 <= j < i ==> NotShorter(blocks[j], b)) && (i < |blocks| ==> blocks[i].length < b.length)
    ensures BlocksOk(Inserted(blocks, i, b))
  {
    var more := Inserted(blocks, i, b);
    forall x | 0 <= x < |more|
      ensures BlockOk(more[x])
    {
      if x != i { assert BlockOk(blocks[if x < i then x else x - 1]); }
    }
    forall x, y | 0 <= x < y < |more|
      ensures Apart(more[x], more[y]) && NotShorter(more[x], more[y])
    {
      var x', y' := if x < i then x else x - 1, if y < i then y else y - 1;
      if x != i && y != i { assert Apart(blocks[x'], blocks[y']) && NotShorter(blocks[x'], blocks[y']); }
      if x == i && i < y' { assert NotShorter(blocks[i], blocks[y']); }
    }
  }

  function Removed(blocks: seq<RamBlock>, i: nat): seq<RamBlock>
    requires i < |blocks|
  {
    blocks[..i] + blocks[i + 1..]
  }

  lemma RemovedOk(blocks: seq<RamBlock>, i: nat)
    requires BlocksOk(blocks) && i < |blocks|
    ensures BlocksOk(Removed(blocks, i))
  {
    var less := Removed(blocks, i);
    forall x | 0 <= x < |less|
      ensures BlockOk(less[x])
    {
      assert BlockOk(blocks[if x < i then x else x + 1]);
    }
    forall x, y | 0 <= x < y < |less|
      ensures Apart(less[x], less[y]) && NotShorter(less[x], less[y])
    {
      var x', y' := if x < i then x else x + 1, if y < i then y else y + 1;
      assert Apart(blocks[x'], blocks[y']) && NotShorter(blocks[x'], blocks[y']);
    }
  }

  /** Offsets tell blocks apart. */
  lemma RemovedOffset(blocks: seq<RamBlock>, i: nat)
    requires BlocksOk(blocks) && i < |blocks|
    ensures forall j :: 0 <= j < |Removed(blocks, i)| ==> Removed(blocks, i)[j].offset != blocks[i].offset
  {
    var less := Removed(blocks, i);
    forall j | 0 <= j < |less|
      ensures less[j].offset != blocks[i].offset
    {
      var k := if j < i then j else j + 1;
      assert BlockOk(blocks[k]) && BlockOk(blocks[i]);
      assert if k < i then Apart(blocks[k], blocks[i]) else Apart(blocks[i], blocks[k]);
    }
  }

  /** TARGET_PAGE_ALIGN, on ram_addr_t */
  function PageAligned(size: nat, pageSize: nat): nat
    requires pageSize > 0
  {
    (size + pageSize - 1) / pageSize * pageSize % WORD
  }

  /** Sizes are rounded up to whole pages, as long as that does not overflow. */
  lemma PageAlignedIs(size: nat, pageSize: nat)
    requires pageSize > 0 && size + pageSize - 1 < WORD
    ensures size <= PageAligned(size, pageSize) < size + pageSize && PageAligned(size, pageSize) % pageSize == 0
  {
    var q := (size + pageSize - 1) / pageSize;
    assert q * pageSize <= size + pageSize - 1 < q * pageSize + pageSize;
    DivIs(q * pageSize, 0, q * pageSize, WORD);
    DivIs(q * pageSize, q, 0, pageSize);
  }

  class RamList {
    const pageSize: nat
    var blocks: seq<RamBlock>
    var mru: Option<RamBlock>
    var version: nat

    ghost predicate Valid()
      reads this
    {
      pageSize > 0 && BlocksOk(blocks) && (mru.Some? ==> mru.value in blocks)
    }

    constructor (pageSize: nat)
      requires pageSize > 0
      ensures Valid() && blocks == [] && this.pageSize == pageSize
    {
      this.pageSize := pageSize;
      blocks, mru, version := [], None, 0;
    }

    /** The inner loop of find_ram_offset */
    method NextStart(end: nat) returns (next: nat)
      ensures next == Next(blocks, |blocks|, end)
    {
      next := RAM_ADDR_MAX;
      for j := 0 to |blocks|
        invariant next == Next(blocks, j, end)
      {
        if blocks[j].offset >= end {
          next := Min(next, blocks[j].offset);
        }
      }
    }

    /** find_ram_offset; nothing stands for abort. */
    method FindRamOffset(size: nat) returns (offset: Option<nat>, ghost best: nat)
      requires Valid() && 0 < size <= RAM_ADDR_MAX
      ensures blocks == [] ==> offset == Some(0)
      ensures blocks != [] && offset.None? ==> NoGap(blocks, |blocks|, size)
      ensures blocks != [] && offset.Some? ==>
              best < |blocks| && offset.value == blocks[best].End() && BestGap(blocks, |blocks|, size, best)
    {
      best := 0;
      if blocks == [] {
        return Some(0), 0;
      }
      var at, minGap := RAM_ADDR_MAX, RAM_ADDR_MAX;
      for k := 0 to |blocks|
        invariant at == RAM_ADDR_MAX ==> minGap == RAM_ADDR_MAX && NoGap(blocks, k, size)
        invariant at != RAM_ADDR_MAX ==>
                  best < k && at == blocks[best].End() && minGap == Gap(blocks, best) && BestGap(blocks, k, size, best)
      {
        assert BlockOk(blocks[k]);
        var end := blocks[k].End();
        var next := NextStart(end);
        if next - end >= size && next - end < minGap {
          at, minGap, best := end, next - end, k;
        }
      }
      offset := if at == RAM_ADDR_MAX then None else Some(at);
    }

    /** qemu_ram_alloc_from_ptr: the new block goes into the smallest gap that is large enough, if there are blocks
        already, and in front of the first shorter one in the list. It aborts for no bytes, or if there is no such
        gap. */
    method Alloc(size: nat) returns (offset: Option<nat>, ghost at: nat, ghost best: nat)
      requires Valid() && size < WORD
      modifies this
      ensures Valid() && (offset.None? ==> blocks == old(blocks) && mru == old(mru) && version == old(version))
      ensures offset.Some? ==> mru == None && version == old(version) + 1
      ensures offset.None? <==>
              PageAligned(size, pageSize) == 0
                || (old(blocks) != [] && NoGap(old(blocks), |old(blocks)|, PageAligned(size, pageSize)))
      ensures offset.Some? ==>
              at <= |old(blocks)| && blocks == Inserted(old(blocks), at,
                RamBlock(offset.value, PageAligned(size, pageSize)))
      ensures offset.Some? && old(blocks) == [] ==> offset.value == 0
      ensures offset.Some? && old(blocks) != [] ==>
                best < |old(blocks)| && offset.value == old(blocks)[best].End()
                  && BestGap(old(blocks), |old(blocks)|, PageAligned(size, pageSize), best)
    {
      var length := PageAligned(size, pageSize);
      at, best := 0, 0;
      if length == 0 {
        return None, 0, 0;
      }
      offset, best := FindRamOffset(length);
      if offset.None? {
        return;
      }
      var block := RamBlock(offset.value, length);
      forall j | 0 <= j < |blocks|
        ensures Apart(blocks[j], block)
      {
        GapIsFree(blocks, best, length, j);
      }
      if blocks != [] { GapIsFree(blocks, best, length, 0); }
      at := Insert(block);
    }

    /** A new block goes in front of the first shorter one, and the cache is emptied. */
    method Insert(block: RamBlock) returns (ghost at: nat)
      requires Valid() && BlockOk(block) && forall j :: 0 <= j < |blocks| ==> Apart(blocks[j], block)
      modifies this
      ensures Valid() && at <= |old(blocks)| && blocks == Inserted(old(blocks), at, block)
      ensures mru == None && version == old(version) + 1
    {
      var i := 0;
      while i < |blocks| && blocks[i].length >= block.length
        invariant i <= |blocks| && forall j :: 0 <= j < i ==> NotShorter(blocks[j], block)
      {
        i := i + 1;
      }
      InsertedOk(blocks, i, block);
      at := i;
      blocks := Inserted(blocks, i, block);
      mru, version := None, version + 1;
    }

    /** qemu_ram_free */
    method Free(addr: nat) returns (ghost at: Option<nat>)
      requires Valid()
      modifies this
      ensures Valid()
      ensures at.Some? ==>
              at.value < |old(blocks)| && old(blocks)[at.value].offset == addr
              && blocks == Removed(old(blocks), at.value)
      ensures at.Some? ==> mru == None && version == old(version) + 1
      ensures at.None? ==> mru == old(mru) && version == old(version)
      ensures at.None? ==> blocks == old(blocks) && forall i :: 0 <= i < |blocks| ==> blocks[i].offset != addr
    {
      for i := 0 to |blocks|
        invariant blocks == old(blocks) && mru == old(mru) && version == old(version) && Valid()
                  && forall j :: 0 <= j < i ==> blocks[j].offset != addr
      {
        if blocks[i].offset == addr {
          RemovedOk(blocks, i);
          blocks := Removed(blocks, i);
          mru, version := None, version + 1;
          return Some(i);
        }
      }
      at := None;
    }

    /** qemu_get_ram_block: with or without a hit in the cache, the one block that has the address; nothing stands for
        abort, when no block has it. */
    method GetRamBlock(addr: nat) returns (block: Option<RamBlock>)
      requires Valid() && addr < WORD
      modifies this`mru
      ensures Valid() && mru == if block.Some? then block else old(mru)
      ensures block.None? ==> forall i :: 0 <= i < |blocks| ==> !blocks[i].Has(addr)
      ensures block.Some? ==>
              block.value in blocks && block.value.Has(addr)
              && forall i :: 0 <= i < |blocks| && blocks[i].Has(addr) ==> blocks[i] == block.value
    {
      if mru.Some? && mru.value.Found(addr) {
        block := mru;
      } else {
        block := None;
        var i := 0;
        while i < |blocks| && block.None?
          invariant i <= |blocks| && mru == old(mru)
          invariant block.None? ==> forall j :: 0 <= j < i ==> !blocks[j].Has(addr)
          invariant block.Some? ==> block.value in blocks && block.value.Found(addr)
          decreases |blocks| - i, block.None?
        {
          assert BlockOk(blocks[i]);
          FoundIsHas(blocks[i], addr);
          if blocks[i].Found(addr) {
            block := Some(blocks[i]);
          }
          i := i + 1;
        }
        if block.None? {
          return;
        }
      }
      mru := block;
      Unique(blocks, block.value, addr);
    }
  }

  lemma Unique(blocks: seq<RamBlock>, b: RamBlock, addr: nat)
    requires BlocksOk(blocks) && b in blocks && b.Found(addr) && addr < WORD
    ensures b.Has(addr) && forall i :: 0 <= i < |blocks| && blocks[i].Has(addr) ==> blocks[i] == b
  {
    var k :| 0 <= k < |blocks| && blocks[k] == b;
    assert BlockOk(blocks[k]);
    FoundIsHas(b, addr);
    forall i | 0 <= i < |blocks| && blocks[i].Has(addr)
      ensures blocks[i] == b
    {
      assert (i < k ==> Apart(blocks[i], blocks[k])) && (k < i ==> Apart(blocks[k], blocks[i]));
    }
  }

  // ---- Whole runs ---------------------------------------------------------------------------------------------

  datatype Op = Alloc(size: nat) | Free(addr: nat) | Get(addr: nat)

  /** A new block goes to the start of an empty list's memory, or to the first of the smallest gaps that it fits
      into. */
  ghost predicate BestFit(before: seq<RamBlock>, b: RamBlock) {
    if before == [] then b.offset == 0
    else exists best: nat | best < |before| ::
      b.offset == before[best].End()
      && BestGap(before, |before|, b.length, best)
  }

  /** What an operation that does not abort makes of the blocks, and what it returns */
  ghost predicate Stepped(op: Op, pageSize: nat, before: seq<RamBlock>, after: seq<RamBlock>, found: Option<RamBlock>)
    requires pageSize > 0
  {
    match op
    case Alloc(size) =>
      found == None && exists at: nat, b: RamBlock | at <= |before| ::
        after == Inserted(before, at, b) && b.length == PageAligned(size, pageSize) > 0 && BestFit(before, b)
    case Free(addr) =>
      && found == None
      && (after == before || exists at: nat | at < |before| ::
         before[at].offset == addr
         && after == Removed(before, at))
      && forall i :: 0 <= i < |after| ==> after[i].offset != addr
    case Get(addr) =>
      after == before && found.Some? && found.value in before && found.value.Has(addr)
  }

  ghost predicate OpOk(op: Op) { (op.Alloc? ==> op.size < WORD) && (op.Get? ==> op.addr < WORD) }

  /** One operation, or an abort */
  method Act(list: RamList, op: Op) returns (ok: bool, found: Option<RamBlock>)
    requires list.Valid() && OpOk(op)
    modifies list
    ensures list.Valid() && (ok ==> Stepped(op, list.pageSize, old(list.blocks), list.blocks, found))
    ensures op.Free? ==> ok
    ensures op.Get? ==> (ok <==> exists i :: 0 <= i < |list.blocks| && list.blocks[i].Has(op.addr))
    ensures op.Alloc? ==> (!ok <==> PageAligned(op.size, list.pageSize) == 0
                                    || (old(list.blocks) != []
                                       && NoGap(old(list.blocks), |old(list.blocks)|,
                                          PageAligned(op.size, list.pageSize))))
  {
    ok, found := true, None;
    match op {
      case Alloc(size) =>
        var offset, at, best := list.Alloc(size);
        ok := offset.Some?;
        assert ok ==> BestFit(old(list.blocks), RamBlock(offset.value, PageAligned(size, list.pageSize)));
      case Free(addr) =>
        ghost var at := list.Free(addr);
        if at.Some? { RemovedOffset(old(list.blocks), at.value); }
      case Get(addr) =>
        found := list.GetRamBlock(addr);
        ok := found.Some?;
    }
  }

  /** Any run of allocations, frees and lookups: until one of them aborts, each does what it says, blocks stay apart and
      sorted, and every lookup gives the block that has the address. */
  method Run(pageSize: nat, ops: seq<Op>)
    returns (list: RamList, ok: bool, found: seq<Option<RamBlock>>, ghost lists: seq<seq<RamBlock>>)
    requires pageSize > 0 && forall i :: 0 <= i < |ops| ==> OpOk(ops[i])
    ensures list.Valid() && list.pageSize == pageSize && |found| <= |ops| && (ok <==> |found| == |ops|)
    ensures |lists| == |found| + 1 && lists[0] == [] && (ok ==> lists[|found|] == list.blocks)
    ensures forall i :: 0 <= i < |lists| ==> BlocksOk(lists[i])
    ensures forall i :: 0 <= i < |found| ==> Stepped(ops[i], pageSize, lists[i], lists[i + 1], found[i])
  {
    list := new RamList(pageSize);
    ok, found, lists := true, [], [list.blocks];
    for i := 0 to |ops|
      invariant ok && list.Valid() && fresh(list) && list.pageSize == pageSize && |found| == i
      invariant |lists| == i + 1 && lists[0] == [] && lists[i] == list.blocks
      invariant forall j :: 0 <= j <= i ==> BlocksOk(lists[j])
      invariant forall j :: 0 <= j < i ==> Stepped(ops[j], pageSize, lists[j], lists[j + 1], found[j])
    {
      var block;
      ok, block := Act(list, ops[i]);
      if !ok {
        return;
      }
      found, lists := found + [block], lists + [list.blocks];
    }
  }
}
