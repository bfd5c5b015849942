/** Guest memory dumps: dump.c computes the place of each memory range in the file twice, once for the
    program headers and once by writing; memory_mapping.c supplies the blocks and mappings for both. */
module GuestDump {
  import opened Arith
  import opened Bytes
  import opened MemoryMapping

  /** has_filter, begin and length */
  datatype Filter = NoFilter | Filter(begin: nat, length: nat)

  // ---- What is dumped ------------------------------------------------------------------------------------

  predicate Outside(b: PhysBlock, f: Filter) {
    f.Filter? && (b.start >= f.begin + f.length || b.end <= f.begin)
  }

  /** The part [Lo, Hi) of a block that the filter lets through */
  function Lo(b: PhysBlock, f: Filter): nat { if f.Filter? && f.begin > b.start then f.begin else b.start }

  function Hi(b: PhysBlock, f: Filter): nat {
    if f.Filter? && f.begin + f.length < b.end then f.begin + f.length else b.end
  }

  function Size(b: PhysBlock, f: Filter): nat
    requires b.start <= b.end
  {
    if Outside(b, f) then 0 else Hi(b, f) - Lo(b, f)
  }

  /** Bytes dumped for the first n blocks */
  function SizeOf(blocks: seq<PhysBlock>, f: Filter, n: nat): nat
    requires n <= |blocks| && BlocksOk(blocks)
  {
    if n == 0 then 0 else SizeOf(blocks, f, n - 1) + Size(blocks[n - 1], f)
  }

  function HostBytes(host: nat -> Byte, a: nat, n: nat): seq<Byte> { seq(n, (i: nat) => host(a + i)) }

  function Piece(b: PhysBlock, f: Filter, host: nat -> Byte): seq<Byte>
    requires b.start <= b.end
  {
    if Outside(b, f) then [] else HostBytes(host, b.host + (Lo(b, f) - b.start), Size(b, f))
  }

  /** The memory part of the file, for the first n blocks */
  function Dumped(blocks: seq<PhysBlock>, f: Filter, host: nat -> Byte, n: nat): (r: seq<Byte>)
    requires n <= |blocks| && BlocksOk(blocks)
    ensures |r| == SizeOf(blocks, f, n)
  {
    if n == 0 then [] else Dumped(blocks, f, host, n - 1) + Piece(blocks[n - 1], f, host)
  }

  /** Guest memory at physical address p, if block k holds it */
  function GuestByte(b: PhysBlock, host: nat -> Byte, p: nat): Byte
    requires b.start <= p < b.end
  {
    host(b.host + (p - b.start))
  }

  /** Every dumped byte is the guest's, at the place that the sizes of the blocks before it give. */
  lemma {:induction false} DumpedAt(blocks: seq<PhysBlock>, f: Filter, host: nat -> Byte, n: nat, k: nat, p: nat)
    requires k < n <= |blocks| && BlocksOk(blocks) && !Outside(blocks[k], f) && Lo(blocks[k], f) <= p < Hi(blocks[k], f)
    ensures SizeOf(blocks, f, k) + (p - Lo(blocks[k], f)) < SizeOf(blocks, f, n)
    ensures Dumped(blocks, f, host, n)[SizeOf(blocks, f, k) + (p - Lo(blocks[k], f))] == GuestByte(blocks[k], host, p)
  {
    if k + 1 < n {
      DumpedAt(blocks, f, host, n - 1, k, p);
    }
  }

  lemma {:induction false} DumpedSkips(blocks: seq<PhysBlock>, f: Filter, host: nat -> Byte, k: nat, n: nat)
    requires k <= n <= |blocks| && BlocksOk(blocks) && forall i :: k <= i < n ==> Outside(blocks[i], f)
    ensures Dumped(blocks, f, host, n) == Dumped(blocks, f, host, k) && SizeOf(blocks, f, n) == SizeOf(blocks, f, k)
  {
    if k < n { DumpedSkips(blocks, f, host, k, n - 1); }
  }

  /** The file is what it was, and then the dumped parts of the first n blocks. */
  ghost predicate FileIs(blocks: seq<PhysBlock>, f: Filter, host: nat -> Byte, file0: seq<Byte>, n: nat,
                         file: seq<Byte>)
    requires n <= |blocks| && BlocksOk(blocks)
  {
    file == file0 + Dumped(blocks, f, host, n)
  }

  lemma FileStarts(blocks: seq<PhysBlock>, f: Filter, host: nat -> Byte, file0: seq<Byte>, n: nat)
    requires n <= |blocks| && BlocksOk(blocks) && forall i :: 0 <= i < n ==> Outside(blocks[i], f)
    ensures FileIs(blocks, f, host, file0, n, file0)
  {
    DumpedSkips(blocks, f, host, 0, n);
    assert file0 + [] == file0;
  }

  lemma Regroup(a: seq<Byte>, b: seq<Byte>, c: seq<Byte>)
    ensures a + b + c == a + (b + c)
  {
  }

  lemma FileGrows(blocks: seq<PhysBlock>, f: Filter, host: nat -> Byte, file0: seq<Byte>, k: nat, n: nat,
                  file: seq<Byte>)
    requires k < n <= |blocks| && BlocksOk(blocks) && !Outside(blocks[k], f) && FileIs(blocks, f, host, file0, k, file)
    requires forall i :: k < i < n ==> Outside(blocks[i], f)
    ensures FileIs(blocks, f, host, file0, n, file + Piece(blocks[k], f, host))
  {
    DumpedSkips(blocks, f, host, k + 1, n);
    Regroup(file0, Dumped(blocks, f, host, k), Piece(blocks[k], f, host));
  }

  // ---- The file --------------------------------------------------------------------------------------------

  /** The fields of a PT_LOAD program header */
  datatype Load = Load(offset: int, filesz: nat, paddr: nat, vaddr: nat, memsz: nat)

  /** Block b has address p, and the filter lets it through. */
  predicate Holds(b: PhysBlock, f: Filter, p: nat) { !Outside(b, f) && Lo(b, f) <= p < Hi(b, f) }

  /** The place of a range in the file: in block k, as far as that goes, or nowhere. */
  ghost predicate Placed(blocks: seq<PhysBlock>, f: Filter, memoryOffset: nat, phys: nat, length: nat, offset: int,
                         filesz: nat)
    requires BlocksOk(blocks)
  {
    if offset == -1 then filesz == 0 && forall k :: 0 <= k < |blocks| ==> !Holds(blocks[k], f, phys)
    else exists k: nat :: k < |blocks| && PlacedIn(blocks, f, memoryOffset, phys, length, offset, filesz, k)
  }

  ghost predicate PlacedIn(blocks: seq<PhysBlock>, f: Filter, memoryOffset: nat, phys: nat, length: nat, offset: int,
                           filesz: nat, k: nat)
    requires BlocksOk(blocks) && k < |blocks|
  {
    && Holds(blocks[k], f, phys) && offset == memoryOffset + SizeOf(blocks, f, k) + (phys - Lo(blocks[k], f))
    && filesz == Min(length, Hi(blocks[k], f) - phys)
  }

  /** get_offset_range */
  method GetOffsetRange(blocks: seq<PhysBlock>, f: Filter, memoryOffset: nat, phys: nat, length: nat)
    returns (offset: int, filesz: nat)
    requires BlocksOk(blocks)
    ensures Placed(blocks, f, memoryOffset, phys, length, offset, filesz) && filesz <= length
  {
    var at := memoryOffset;
    if f.Filter? && (phys < f.begin || phys >= f.begin + f.length) {
      return -1, 0;
    }
    for k := 0 to |blocks|
      invariant at == memoryOffset + SizeOf(blocks, f, k)
      invariant forall i :: 0 <= i < k ==> !Holds(blocks[i], f, phys)
    {
      var block := blocks[k];
      var start, size;
      if f.Filter? {
        if block.start >= f.begin + f.length || block.end <= f.begin {
          continue;
        }
        start := if f.begin <= block.start then block.start else f.begin;
        size := block.end - start;
        if f.begin + f.length < block.end {
          size := size - (block.end - (f.begin + f.length));
        }
      } else {
        start := block.start;
        size := block.end - block.start;
      }
      if start <= phys < start + size {
        offset := phys - start + at;
        filesz := if phys + length <= start + size then length else size - (phys - start);
        assert PlacedIn(blocks, f, memoryOffset, phys, length, offset, filesz, k);
        return;
      }
      at := at + size;
    }
    return -1, 0;
  }

  function GuestBytes(b: PhysBlock, host: nat -> Byte, p: nat, n: nat): seq<Byte>
    requires b.start <= p && p + n <= b.end
  {
    HostBytes(host, b.host + (p - b.start), n)
  }

  /** The file holds the memory that the header speaks of: filesz bytes of guest memory from paddr on, as many as
      the mapping and the dumped part of its block have, or none if that address is not dumped. */
  ghost predicate LoadOk(blocks: seq<PhysBlock>, f: Filter, host: nat -> Byte, file: seq<Byte>, m: Mapping, load: Load)
    requires BlocksOk(blocks)
  {
    && load.paddr == m.phys && load.vaddr == m.virt && load.memsz == m.length && load.filesz <= load.memsz
    && if load.offset == -1 then load.filesz == 0 && forall k :: 0 <= k < |blocks| ==> !Holds(blocks[k], f, m.phys)
       else exists k: nat :: k < |blocks| && Shows(blocks[k], f, host, file, m, load)
  }

  ghost predicate Shows(b: PhysBlock, f: Filter, host: nat -> Byte, file: seq<Byte>, m: Mapping, load: Load) {
    && Holds(b, f, m.phys) && load.filesz == Min(m.length, Hi(b, f) - m.phys) && b.start <= m.phys
       && m.phys + load.filesz <= b.end
    && 0 <= load.offset && load.offset + load.filesz <= |file|
    && file[load.offset..load.offset + load.filesz] == GuestBytes(b, host, m.phys, load.filesz)
  }

  lemma SliceIs(all: seq<Byte>, x: nat, bytes: seq<Byte>)
    requires x + |bytes| <= |all| && forall i: nat | i < |bytes| :: all[x + i] == bytes[i]
    ensures all[x..x + |bytes|] == bytes
  {
  }

  /** A range that has its place in block k is dumped there. */
  lemma RangeDumped(blocks: seq<PhysBlock>, f: Filter, host: nat -> Byte, k: nat, p: nat, n: nat, all: seq<Byte>)
    requires k < |blocks| && BlocksOk(blocks) && Holds(blocks[k], f, p) && p + n <= Hi(blocks[k], f)
    requires all == Dumped(blocks, f, host, |blocks|)
    ensures var x := SizeOf(blocks, f, k) + (p - Lo(blocks[k], f));
            x + n <= |all| && all[x..x + n] == GuestBytes(blocks[k], host, p, n)
  {
    var x, bytes := SizeOf(blocks, f, k) + (p - Lo(blocks[k], f)), GuestBytes(blocks[k], host, p, n);
    assert x + n <= |all| by { SizesAdd(blocks, f, k, |blocks|); }
    forall i: nat | i < |bytes|
      ensures all[x + i] == bytes[i]
    {
      ByteDumped(blocks, f, host, k, p, i, x, all);
    }
    SliceIs(all, x, bytes);
  }

  lemma ByteDumped(blocks: seq<PhysBlock>, f: Filter, host: nat -> Byte, k: nat, p: nat, i: nat, x: nat, all: seq<Byte>)
    requires k < |blocks| && BlocksOk(blocks) && Holds(blocks[k], f, p) && p + i < Hi(blocks[k], f)
    requires all == Dumped(blocks, f, host, |blocks|) && x == SizeOf(blocks, f, k) + (p - Lo(blocks[k], f))
    ensures x + i < |all| && all[x + i] == host(blocks[k].host + (p - blocks[k].start) + i)
  {
    DumpedAt(blocks, f, host, |blocks|, k, p + i);
  }

  lemma SliceAfter(headers: seq<Byte>, all: seq<Byte>, x: nat, n: nat)
    requires x + n <= |all|
    ensures (headers + all)[|headers| + x..|headers| + x + n] == all[x..x + n]
  {
  }

  lemma PlacedShows(blocks: seq<PhysBlock>, f: Filter, host: nat -> Byte, headers: seq<Byte>, all: seq<Byte>,
                    m: Mapping, load: Load, k: nat)
    requires BlocksOk(blocks) && all == Dumped(blocks, f, host, |blocks|) && k < |blocks|
    requires PlacedIn(blocks, f, |headers|, m.phys, m.length, load.offset, load.filesz, k)
    ensures Shows(blocks[k], f, host, headers + all, m, load)
  {
    var x, n, file := SizeOf(blocks, f, k) + (m.phys - Lo(blocks[k], f)), load.filesz, headers + all;
    assert m.phys + n <= Hi(blocks[k], f) <= blocks[k].end;
    var bytes := GuestBytes(blocks[k], host, m.phys, n);
    assert load.offset == |headers| + x && x + n <= |all| && file[load.offset..load.offset + n] == bytes by {
      RangeDumped(blocks, f, host, k, m.phys, n, all);
      SliceAfter(headers, all, x, n);
    }
  }

  /** The two computations agree: a header made from get_offset_range points at what dump_iterate writes. */
  lemma OffsetsAgree(blocks: seq<PhysBlock>, f: Filter, host: nat -> Byte, headers: seq<Byte>, all: seq<Byte>,
                     m: Mapping, load: Load)
    requires BlocksOk(blocks) && all == Dumped(blocks, f, host, |blocks|)
    requires Placed(blocks, f, |headers|, m.phys, m.length, load.offset, load.filesz) && load.filesz <= m.length
    requires load.paddr == m.phys && load.vaddr == m.virt && load.memsz == m.length
    ensures LoadOk(blocks, f, host, headers + all, m, load)
  {
    if load.offset != -1 {
      var k: nat :| k < |blocks| && PlacedIn(blocks, f, |headers|, m.phys, m.length, load.offset, load.filesz, k);
      PlacedShows(blocks, f, host, headers, all, m, load, k);
    }
  }

  lemma {:induction false} SizesAdd(blocks: seq<PhysBlock>, f: Filter, k: nat, n: nat)
    requires k < n <= |blocks| && BlocksOk(blocks)
    ensures SizeOf(blocks, f, k) + Size(blocks[k], f) <= SizeOf(blocks, f, n)
  {
    if k + 1 < n { SizesAdd(blocks, f, k, n - 1); }
  }

  // ---- Layout and writing -----------------------------------------------------------------------------

  const UINT16_MAX: nat := 0xffff
  const UINT32_MAX: nat := 0xffff_ffff
  const PN_XNUM: nat := 0xffff

  /** sizeof of the ELF header, a program header and a section header */
  function EhdrSize(class64: bool): nat { if class64 then 64 else 52 }

  function PhdrSize(class64: bool): nat { if class64 then 56 else 32 }

  function ShdrSize(class64: bool): nat { if class64 then 64 else 40 }

  function Zeroes(n: nat): (r: seq<Byte>)
    ensures |r| == n
  {
    seq(n, _ => 0)
  }

  class DumpState {
    const blocks: seq<PhysBlock>
    const filter: Filter
    const mappings: seq<Mapping>
    const host: nat -> Byte
    const pageSize: nat
    const class64: bool
    const noteSize: nat
    var haveSection: bool
    var phdrNum: nat
    var shInfo: nat
    var memoryOffset: nat
    var nextBlock: nat
    var start: nat
    /** What has been written; the contents of headers and notes are not modelled. */
    var file: seq<Byte>
    /** The program headers of type PT_LOAD */
    var loads: seq<Load>

    ghost predicate Sound() {
      BlocksOk(blocks) && pageSize > 0 && |mappings| <= UINT32_MAX && (filter.NoFilter? ==> blocks != [])
    }

    constructor (blocks: seq<PhysBlock>, filter: Filter, mappings: seq<Mapping>, host: nat -> Byte, pageSize: nat,
                 class64: bool,
                 noteSize: nat)
      ensures this.blocks == blocks && this.filter == filter && this.mappings == mappings && this.host == host
      ensures this.pageSize == pageSize && this.class64 == class64 && this.noteSize == noteSize && file == []
              && loads == []
    {
      this.blocks, this.filter, this.mappings, this.host := blocks, filter, mappings, host;
      this.pageSize, this.class64, this.noteSize := pageSize, class64, noteSize;
      haveSection, phdrNum, shInfo, memoryOffset, nextBlock, start, file, loads := false, 0, 0, 0, 0, 0, [], [];
    }

    /** The cursor stands at a block of which something may be dumped. */
    ghost predicate AtBlock()
      reads this
    {
      nextBlock < |blocks| && !Outside(blocks[nextBlock], filter)
        && start == Lo(blocks[nextBlock], filter) - blocks[nextBlock].start
    }

    /** get_start_block; false stands for -1. */
    method GetStartBlock() returns (ok: bool)
      requires Sound()
      modifies this`nextBlock, this`start
      ensures ok <==> exists i :: 0 <= i < |blocks| && !Outside(blocks[i], filter)
      ensures ok ==> AtBlock() && forall i :: 0 <= i < nextBlock ==> Outside(blocks[i], filter)
    {
      if filter.NoFilter? {
        nextBlock, start := 0, 0;
        assert !Outside(blocks[0], filter);
        return true;
      }
      for i := 0 to |blocks|
        invariant forall j :: 0 <= j < i ==> Outside(blocks[j], filter)
      {
        var block := blocks[i];
        if block.start >= filter.begin + filter.length || block.end <= filter.begin {
          continue;
        }
        nextBlock := i;
        if filter.begin > block.start {
          start := filter.begin - block.start;
        } else {
          start := 0;
        }
        return true;
      }
      ok := false;
    }

    /** get_next_block */
    method GetNextBlock(from: nat) returns (done: bool)
      requires Sound() && from < |blocks|
      modifies this`nextBlock, this`start
      ensures done ==> forall i :: from < i < |blocks| ==> Outside(blocks[i], filter)
      ensures !done ==> AtBlock() && from < nextBlock && forall i :: from < i < nextBlock ==> Outside(blocks[i], filter)
    {
      var block := from;
      while true
        invariant from <= block < |blocks| && forall i :: from < i <= block ==> Outside(blocks[i], filter)
        decreases |blocks| - block
      {
        block := block + 1;
        if block == |blocks| {
          return true;
        }
        start, nextBlock := 0, block;
        if filter.Filter? {
          if blocks[block].start >= filter.begin + filter.length || blocks[block].end <= filter.begin {
            continue;
          }
          if filter.begin > blocks[block].start {
            start := filter.begin - blocks[block].start;
          }
        }
        return false;
      }
    }

    /** write_memory: whole pages, and what is left */
    method WriteMemory(block: PhysBlock, start: nat, size: nat)
      requires pageSize > 0
      modifies this`file
      ensures file == old(file) + HostBytes(host, block.host + start, size)
    {
      var i := 0;
      ghost var pages := size / pageSize;
      while i < size / pageSize
        invariant i <= pages && file == old(file) + HostBytes(host, block.host + start, i * pageSize)
      {
        file := file + HostBytes(host, block.host + start + i * pageSize, pageSize);
        HostBytesJoin(host, block.host + start, i * pageSize, pageSize);
        assert (i + 1) * pageSize == i * pageSize + pageSize;
        i := i + 1;
      }
      assert size == pages * pageSize + size % pageSize;
      if size % pageSize != 0 {
        file := file + HostBytes(host, block.host + start + i * pageSize, size % pageSize);
        HostBytesJoin(host, block.host + start, i * pageSize, size % pageSize);
      }
    }

    /** The block at the cursor, as far as the filter lets it through */
    method WriteBlock()
      requires Sound() && AtBlock()
      modifies this`file
      ensures file == old(file) + Piece(blocks[nextBlock], filter, host)
    {
      var block := blocks[nextBlock];
      var size := block.end - block.start;
      if filter.Filter? {
        size := size - start;
        if filter.begin + filter.length < block.end {
          size := size - (block.end - (filter.begin + filter.length));
        }
      }
      WriteMemory(block, start, size);
    }

    /** dump_iterate */
    method Iterate()
      requires Sound() && AtBlock() && forall i :: 0 <= i < nextBlock ==> Outside(blocks[i], filter)
      modifies this`file, this`nextBlock, this`start
      ensures file == old(file) + Dumped(blocks, filter, host, |blocks|)
    {
      FileStarts(blocks, filter, host, file, nextBlock);
      var done := false;
      while !done
        invariant done ==> FileIs(blocks, filter, host, old(file), |blocks|, file)
        invariant !done ==> AtBlock() && FileIs(blocks, filter, host, old(file), nextBlock, file)
        decreases if done then 0 else 1 + |blocks| - nextBlock
      {
        var k := nextBlock;
        ghost var before := file;
        WriteBlock();
        done := GetNextBlock(k);
        FileGrows(blocks, filter, host, old(file), k, if done then |blocks| else nextBlock, before);
      }
    }

    /** The number of program headers, with the one for the notes, and where memory starts: the end of dump_init */
    method Layout()
      requires |mappings| <= UINT32_MAX
      modifies this`haveSection, this`phdrNum, this`shInfo, this`memoryOffset
      ensures MaxIndex() == 1 + LoadCount(|mappings|) && (haveSection <==> |mappings| >= UINT16_MAX - 2)
      ensures phdrNum <= UINT16_MAX && (haveSection ==> phdrNum == PN_XNUM && shInfo <= UINT32_MAX)
      ensures memoryOffset == EhdrSize(class64) + PhdrSize(class64) * MaxIndex() + SectionSize() + noteSize
    {
      phdrNum := 1;
      if |mappings| < UINT16_MAX - 2 {
        phdrNum := phdrNum + |mappings|;
        haveSection := false;
      } else {
        haveSection := true;
        phdrNum := PN_XNUM;
        shInfo := 1;
        if |mappings| <= UINT32_MAX - 1 {
          shInfo := shInfo + |mappings|;
        } else {
          shInfo := UINT32_MAX;
        }
      }
      if haveSection {
        memoryOffset := EhdrSize(class64) + PhdrSize(class64) * shInfo + ShdrSize(class64) + noteSize;
      } else {
        memoryOffset := EhdrSize(class64) + PhdrSize(class64) * phdrNum + noteSize;
      }
    }

    function MaxIndex(): nat
      reads this
    {
      if haveSection then shInfo else phdrNum
    }

    function SectionSize(): nat
      reads this
    {
      if haveSection then ShdrSize(class64) else 0
    }

    /** write_elf_loads */
    method WriteLoads()
      requires Sound() && loads == [] && MaxIndex() == 1 + LoadCount(|mappings|)
      modifies this`file, this`loads
      ensures |file| == old(|file|) + PhdrSize(class64) * LoadCount(|mappings|) && |loads| == LoadCount(|mappings|)
      ensures forall i :: 0 <= i < |loads| ==> Made(blocks, filter, memoryOffset, mappings[i], loads[i])
    {
      var maxIndex := MaxIndex();
      var phdrIndex, i := 1, 0;
      while i < |mappings|
        modifies this`file, this`loads
        invariant phdrIndex == 1 + i && |loads| == i <= LoadCount(|mappings|)
        invariant |file| == old(|file|) + PhdrSize(class64) * i
        invariant forall j :: 0 <= j < i ==> Made(blocks, filter, memoryOffset, mappings[j], loads[j])
        invariant i > 0 ==> phdrIndex < maxIndex
      {
        var m := mappings[i];
        var offset, filesz := GetOffsetRange(blocks, filter, memoryOffset, m.phys, m.length);
        file := file + Zeroes(PhdrSize(class64));
        loads := loads + [Load(offset, filesz, m.phys, m.virt, m.length)];
        phdrIndex, i := phdrIndex + 1, i + 1;
        assert PhdrSize(class64) * i == PhdrSize(class64) * (i - 1) + PhdrSize(class64);
        if phdrIndex >= maxIndex {
          break;
        }
      }
    }

    /** dump_begin: what comes before memory is as long as dump_init said. */
    method Begin()
      requires Sound() && loads == [] && file == [] && MaxIndex() == 1 + LoadCount(|mappings|)
      requires memoryOffset == EhdrSize(class64) + PhdrSize(class64) * MaxIndex() + SectionSize() + noteSize
      modifies this`file, this`loads
      ensures |file| == memoryOffset && |loads| == LoadCount(|mappings|)
      ensures forall i :: 0 <= i < |loads| ==> Made(blocks, filter, memoryOffset, mappings[i], loads[i])
    {
      file := file + Zeroes(EhdrSize(class64));
      file := file + Zeroes(PhdrSize(class64));
      WriteLoads();
      if haveSection {
        file := file + Zeroes(ShdrSize(class64));
      }
      file := file + Zeroes(noteSize);
      assert PhdrSize(class64) * MaxIndex() == PhdrSize(class64) + PhdrSize(class64) * LoadCount(|mappings|);
    }

    /** dump_init and create_vmcore: unless the filter leaves nothing, every program header points at the guest memory
        that it describes. */
    method Create() returns (ok: bool)
      requires Sound() && file == [] && loads == []
      modifies this
      ensures ok <==> exists i :: 0 <= i < |blocks| && !Outside(blocks[i], filter)
      ensures ok ==>
              |loads| == LoadCount(|mappings|)
              && forall i :: 0 <= i < |loads| ==> LoadOk(blocks, filter, host, file, mappings[i], loads[i])
      ensures ok ==> memoryOffset <= |file| && file[memoryOffset..] == Dumped(blocks, filter, host, |blocks|)
    {
      ok := GetStartBlock();
      if ok {
        Layout();
        Begin();
        ghost var headers, all := file, Dumped(blocks, filter, host, |blocks|);
        Iterate();
        assert file == headers + all;
        forall i | 0 <= i < |loads|
          ensures LoadOk(blocks, filter, host, file, mappings[i], loads[i])
        {
          assert Made(blocks, filter, memoryOffset, mappings[i], loads[i]);
          OffsetsAgree(blocks, filter, host, headers, all, mappings[i], loads[i]);
        }
      }
    }
  }

  /** PT_LOAD headers that there are numbers for */
  function LoadCount(n: nat): nat { Min(n, UINT32_MAX - 1) }

  ghost predicate Made(blocks: seq<PhysBlock>, f: Filter, memoryOffset: nat, m: Mapping, load: Load)
    requires BlocksOk(blocks)
  {
    && Placed(blocks, f, memoryOffset, m.phys, m.length, load.offset, load.filesz) && load.filesz <= m.length
    && load.paddr == m.phys && load.vaddr == m.virt && load.memsz == m.length
  }

  lemma HostBytesJoin(host: nat -> Byte, a: nat, m: nat, n: nat)
    ensures HostBytes(host, a, m) + HostBytes(host, a + m, n) == HostBytes(host, a, m + n)
  {
  }

  // ---- Dumps without paging -------------------------------------------------------------------------------

  /** A header whose file range has address p, and the guest's byte for it */
  ghost predicate Has(load: Load, file: seq<Byte>, p: nat, byte: Byte) {
    && load.paddr <= p < load.paddr + load.filesz && 0 <= load.offset && load.offset + (p - load.paddr) < |file|
    && file[load.offset + (p - load.paddr)] == byte
  }

  /** A mapping for the whole dumped part of block k gets all of it. */
  lemma WholeBlock(blocks: seq<PhysBlock>, f: Filter, host: nat -> Byte, file: seq<Byte>, m: Mapping, load: Load,
                   k: nat, p: nat)
    requires BlocksOk(blocks) && k < |blocks| && Holds(blocks[k], f, p) && LoadOk(blocks, f, host, file, m, load)
    requires m.phys == Lo(blocks[k], f) && m.phys + m.length == Hi(blocks[k], f)
    ensures Has(load, file, p, GuestByte(blocks[k], host, p))
  {
    assert Holds(blocks[k], f, m.phys);
    var j: nat :| j < |blocks| && Shows(blocks[j], f, host, file, m, load);
    assert j < k ==> InOrder(blocks[j], blocks[k]);
    assert k < j ==> InOrder(blocks[k], blocks[j]);
    var n, x := load.filesz, p - m.phys;
    assert file[load.offset + x] == file[load.offset..load.offset + n][x] == GuestBytes(blocks[k], host, m.phys, n)[x];
  }

  /** The mappings of a dump without paging are the dumped parts of the blocks. */
  ghost predicate Whole(blocks: seq<PhysBlock>, f: Filter, maps: seq<Mapping>)
    requires BlocksOk(blocks)
  {
    forall k: nat, p: nat | k < |blocks| && Holds(blocks[k], f, p) ::
      exists i :: 0 <= i < |maps| && maps[i].phys == Lo(blocks[k], f)
        && maps[i].phys + maps[i].length == Hi(blocks[k], f)
  }

  /** The mapping list of such a dump: qemu_get_guest_simple_memory_mapping and memory_mapping_filter */
  method SimpleList(blocks: seq<PhysBlock>, f: Filter) returns (maps: seq<Mapping>)
    requires BlocksOk(blocks)
    ensures |maps| <= |blocks| && Whole(blocks, f, maps)
  {
    var list := new MemoryMappingList();
    SimpleMapping(list, blocks);
    ghost var all := list.maps;
    if f.Filter? {
      list.Filter(f.begin, f.length);
      FilterShorter(all, f.begin, f.length, |all|);
    }
    maps := list.maps;
    forall k: nat, p: nat | k < |blocks| && Holds(blocks[k], f, p)
      ensures exists i ::
              0 <= i < |maps| && maps[i].phys == Lo(blocks[k], f)
              && maps[i].phys + maps[i].length == Hi(blocks[k], f)
    {
      var m := MapOf(blocks[k]);
      assert m in all;
      if f.Filter? {
        FilterHas(all, f.begin, f.length, |all|, Clipped(m, f.begin, f.length));
        assert Clipped(m, f.begin, f.length) in maps;
      }
    }
  }

  lemma {:induction false} FilterShorter(maps: seq<Mapping>, begin: nat, length: nat, n: nat)
    requires n <= |maps|
    ensures |FilterUpTo(maps, begin, length, n)| <= n
  {
    if n > 0 { FilterShorter(maps, begin, length, n - 1); }
  }

  /** A dump without paging is complete: every byte of guest memory that the filter lets through is in the file, and
      some program header says where. */
  method DumpSimple(blocks: seq<PhysBlock>, f: Filter, host: nat -> Byte, pageSize: nat, class64: bool, noteSize: nat)
    returns (ok: bool, file: seq<Byte>, loads: seq<Load>)
    requires BlocksOk(blocks) && |blocks| < UINT32_MAX && pageSize > 0 && (f.NoFilter? ==> blocks != [])
    ensures ok <==> exists i :: 0 <= i < |blocks| && !Outside(blocks[i], f)
    ensures ok ==> forall k: nat, p: nat | k < |blocks| && Holds(blocks[k], f, p) ::
                     exists i :: 0 <= i < |loads| && Has(loads[i], file, p, GuestByte(blocks[k], host, p))
  {
    var maps := SimpleList(blocks, f);
    var d := new DumpState(blocks, f, maps, host, pageSize, class64, noteSize);
    ok := d.Create();
    file, loads := d.file, d.loads;
    if ok {
      forall k: nat, p: nat | k < |blocks| && Holds(blocks[k], f, p)
        ensures exists i :: 0 <= i < |loads| && Has(loads[i], file, p, GuestByte(blocks[k], host, p))
      {
        var i :| 0 <= i < |maps| && maps[i].phys == Lo(blocks[k], f)
            && maps[i].phys + maps[i].length == Hi(blocks[k], f);
        WholeBlock(blocks, f, host, file, maps[i], loads[i], k, p);
      }
    }
  }
}
