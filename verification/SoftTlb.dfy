/** The software TLB of cputlb.c: a direct-mapped table of small pages, and one address/mask pair that
    remembers where large pages have been entered. Addresses are the numbers below 2^width. Every mask
    there is of the form ~(2^k - 1) and is represented by k: shifting it left adds one to k, and the
    conjunction of two masks has the larger k. */
module SoftTlb {
  import opened Arith

  // ---- Words and masks -------------------------------------------------------------------------

  /** a >> k and q << k */
  function Shr(a: nat, k: nat): nat { if k == 0 then a else Shr(a, k - 1) / 2 }

  function Shl(q: nat, k: nat): nat
    decreases k
  {
    if k == 0 then q else Shl(q * 2, k - 1)
  }

  /** a & ~(2^k - 1) */
  function Masked(a: nat, k: nat): nat { Shl(Shr(a, k), k) }

  lemma {:induction false} ShiftOrder(a: nat, q: nat, k: nat)
    ensures Shr(a, k) >= q <==> a >= Shl(q, k)
    decreases k
  {
    if k > 0 { ShiftOrder(a, q * 2, k - 1); }
  }

  lemma {:induction false} ShlGrows(q: nat, k: nat)
    ensures Shl(q, k) >= q && Shl(q + 1, k) == Shl(q, k) + Shl(1, k)
    decreases k
  {
    if k > 0 {
      ShlGrows(q * 2, k - 1);
      ShlGrows(q * 2 + 1, k - 1);
      ShlGrows(1, k - 1);
    }
  }

  /** The numbers with a common masked part are a block of 2^k. */
  lemma MaskedBlock(a: nat, q: nat, k: nat)
    ensures Shr(a, k) == q <==> Shl(q, k) <= a < Shl(q, k) + Shl(1, k)
  {
    ShiftOrder(a, q, k);
    ShiftOrder(a, q + 1, k);
    ShlGrows(q, k);
  }

  lemma MaskedSame(a: nat, b: nat, k: nat)
    ensures Masked(a, k) == Masked(b, k) <==> Shr(a, k) == Shr(b, k)
    ensures Masked(Masked(a, k), k) == Masked(a, k) && Masked(a, k) <= a < Masked(a, k) + Shl(1, k)
  {
    ShlGrows(1, k);
    MaskedBlock(a, Shr(a, k), k);
    MaskedBlock(Masked(a, k), Shr(a, k), k);
    MaskedBlock(Masked(b, k), Shr(b, k), k);
  }

  lemma {:induction false} ShrMore(a: nat, b: nat, j: nat, k: nat)
    requires j <= k && Shr(a, j) == Shr(b, j)
    ensures Shr(a, k) == Shr(b, k)
  {
    if j < k { ShrMore(a, b, j, k - 1); }
  }

  /** An aligned number plus something below 2^k keeps its masked part. */
  lemma MaskedSum(a: nat, f: nat, k: nat)
    requires Masked(a, k) == a && f < Shl(1, k)
    ensures Masked(a + f, k) == a
  {
    MaskedBlock(a, Shr(a, k), k);
    MaskedBlock(a + f, Shr(a, k), k);
  }

  lemma {:induction false} ShlMultiple(q: nat, k: nat)
    requires k >= 6
    ensures Shl(q, k) % 64 == 0
    decreases k
  {
    if k > 6 { ShlMultiple(q * 2, k - 1); }
    else { assert Shl(q, 6) == q * 64 by { ShlSix(q); } }
  }

  lemma ShlSix(q: nat)
    ensures Shl(q, 6) == q * 64
  {
    assert Shl(q, 6) == Shl(q * 2, 5) == Shl(q * 4, 4) == Shl(q * 8, 3) == Shl(q * 16, 2) == Shl(q * 32, 1);
  }

  lemma ShrOfSmall(a: nat, k: nat)
    requires a < Shl(1, k)
    ensures Shr(a, k) == 0 && Masked(a, k) == 0
  {
    ShlGrows(0, k);
    MaskedBlock(a, 0, k);
    ShlZero(k);
  }

  lemma {:induction false} ShlZero(k: nat)
    ensures Shl(0, k) == 0
  {
    if k > 0 { ShlZero(k - 1); }
  }

  // ---- Guest pages and the flush region ------------------------------------------------------------

  /** A page of the guest's page tables: the one of size 2^k that holds vaddr. */
  datatype GuestPage = GuestPage(vaddr: nat, k: nat)

  predicate Contains(g: GuestPage, a: nat) { Shr(a, g.k) == Shr(g.vaddr, g.k) }

  /** The region (addr, mask k) takes in the whole page. */
  predicate RegionCovers(addr: nat, k: nat, g: GuestPage) { g.k <= k && Masked(g.vaddr, k) == addr }

  lemma CoveredAddress(addr: nat, k: nat, g: GuestPage, a: nat)
    requires RegionCovers(addr, k, g) && Contains(g, a)
    ensures Masked(a, k) == addr
  {
    ShrMore(a, g.vaddr, g.k, k);
  }

  lemma Widened(addr: nat, k: nat, k': nat, g: GuestPage)
    requires RegionCovers(addr, k, g) && k <= k'
    ensures RegionCovers(Masked(addr, k'), k', g)
  {
    MaskedSame(g.vaddr, g.vaddr, k);
    MaskedSame(addr, g.vaddr, k);
    ShrMore(addr, g.vaddr, k, k');
  }

  /** The address/mask pair, and what it holds if no large page is remembered */
  datatype Region = Region(addr: nat, mask: nat)

  function NoRegion(ones: nat, width: nat): Region { Region(ones, width) }

  predicate InRegion(r: Region, a: nat) { Masked(a, r.mask) == r.addr }

  /** The first mask from mask0 on under which both addresses are the same */
  function Agreed(a: nat, b: nat, mask0: nat, width: nat): nat
    decreases width - mask0
  {
    if mask0 >= width || Masked(a, mask0) == Masked(b, mask0) then mask0 else Agreed(a, b, mask0 + 1, width)
  }

  function Grown(r: Region, g: GuestPage, ones: nat, width: nat): Region {
    if r.addr == ones then Region(Masked(g.vaddr, g.k), g.k)
    else
      var mask := Agreed(r.addr, g.vaddr, if g.k > r.mask then g.k else r.mask, width);
      Region(Masked(r.addr, mask), mask)
  }

  lemma {:induction false} AgreedIsFirst(a: nat, b: nat, mask0: nat, width: nat, mask: nat)
    requires mask0 <= mask <= width && Masked(a, mask) == Masked(b, mask)
    ensures mask0 <= Agreed(a, b, mask0, width) <= mask
    ensures Masked(a, Agreed(a, b, mask0, width)) == Masked(b, Agreed(a, b, mask0, width))
    decreases mask - mask0
  {
    if Masked(a, mask0) != Masked(b, mask0) { AgreedIsFirst(a, b, mask0 + 1, width, mask); }
  }

  /** The region that tlb_add_large_page makes is the least one that takes in the page and the region before, if there
      was one; without one it is the page itself. */
  lemma GrownIsLeast(r: Region, g: GuestPage, ones: nat, width: nat, least: Region)
    requires least.mask <= width && RegionCovers(least.addr, least.mask, g)
    requires r.addr != ones ==> r.mask <= least.mask && Masked(r.addr, least.mask) == least.addr
    ensures var r' := Grown(r, g, ones, width);
            && r'.mask <= least.mask && RegionCovers(r'.addr, r'.mask, g)
            && (r.addr != ones ==> r.mask <= r'.mask && Masked(r.addr, r'.mask) == r'.addr)
            && (r.addr == ones ==> r' == Region(Masked(g.vaddr, g.k), g.k))
  {
    if r.addr != ones {
      AgreedIsFirst(r.addr, g.vaddr, if g.k > r.mask then g.k else r.mask, width, least.mask);
    }
  }

  // ---- Table entries ----------------------------------------------------------------------------

  const INVALID: nat := 8
  const NOTDIRTY: nat := 16
  const MMIO: nat := 32

  /** CPUTLBEntry */
  datatype Entry = Entry(read: nat, write: nat, code: nat, addend: int)

  /** x & (TARGET_PAGE_MASK | TLB_INVALID_MASK) */
  function PageOf(x: nat, pageBits: nat): nat { Masked(x, pageBits) + (x / INVALID % 2) * INVALID }

  /** An access to address a through field x hits. */
  predicate Hits(x: nat, a: nat, pageBits: nat) { Masked(a, pageBits) == PageOf(x, pageBits) }

  predicate Serves(e: Entry, a: nat, pageBits: nat) {
    Hits(e.read, a, pageBits) || Hits(e.write, a, pageBits) || Hits(e.code, a, pageBits)
  }

  lemma InvalidNeverHits(x: nat, a: nat, pageBits: nat)
    requires pageBits >= 6 && x / INVALID % 2 == 1
    ensures !Hits(x, a, pageBits)
  {
    ShlMultiple(Shr(a, pageBits), pageBits);
    ShlMultiple(Shr(x, pageBits), pageBits);
  }

  /** A page address with flags hits exactly the addresses of that page. */
  lemma FlaggedPageHits(vaddr: nat, flags: nat, a: nat, pageBits: nat)
    requires pageBits >= 6 && Masked(vaddr, pageBits) == vaddr && flags in {0, NOTDIRTY, MMIO, NOTDIRTY + MMIO}
    ensures Hits(vaddr + flags, a, pageBits) <==> Masked(a, pageBits) == vaddr
  {
    ShlMultiple(Shr(vaddr, pageBits), pageBits);
    ShlMultiple(1, pageBits);
    ShlGrows(1, pageBits);
    assert Shl(1, pageBits) >= 64;
    MaskedSum(vaddr, flags, pageBits);
  }

  /** (vaddr >> TARGET_PAGE_BITS) & (CPU_TLB_SIZE - 1) */
  function SlotOf(vaddr: nat, pageBits: nat, entries: nat): (i: nat)
    requires entries > 0
    ensures i < entries
  {
    Shr(vaddr, pageBits) % entries
  }

  /** Pages that follow each other have slots that follow each other, going round. */
  lemma NextSlot(vaddr: nat, pageBits: nat, entries: nat)
    requires entries > 0
    ensures SlotOf(vaddr + Shl(1, pageBits), pageBits, entries)
            == if SlotOf(vaddr, pageBits, entries) + 1 < entries then SlotOf(vaddr, pageBits, entries) + 1 else 0
    ensures vaddr < Shl(1, pageBits) ==> SlotOf(vaddr, pageBits, entries) == 0
  {
    var q := Shr(vaddr, pageBits);
    MaskedBlock(vaddr, q, pageBits);
    ShlGrows(q, pageBits);
    MaskedBlock(vaddr + Shl(1, pageBits), q + 1, pageBits);
    NextRest(q, q / entries, q % entries, entries);
    if vaddr < Shl(1, pageBits) { ShrOfSmall(vaddr, pageBits); }
  }

  lemma NextRest(x: nat, q: nat, rest: nat, n: nat)
    requires rest < n && x == q * n + rest
    ensures (x + 1) % n == if rest + 1 < n then rest + 1 else 0
  {
    if rest + 1 < n {
      DivIs(x + 1, q, rest + 1, n);
    } else {
      assert (q + 1) * n == q * n + n;
      DivIs(x + 1, q + 1, 0, n);
    }
  }

  // ---- The TLB of one CPU -------------------------------------------------------------------------

  class CpuTlb {
    /** The width of target_ulong, TARGET_PAGE_BITS, NB_MMU_MODES and CPU_TLB_SIZE */
    const width: nat
    const pageBits: nat
    const modes: nat
    const entries: nat
    const table: array2<Entry>
    var flushAddr: nat
    var flushMask: nat
    /** The large pages entered since the last full flush. */
    ghost var large: set<GuestPage>

    /** (target_ulong)-1 */
    function Ones(): nat {
      ShlGrows(1, width);
      Shl(1, width) - 1
    }

    function Empty(): Entry { Entry(Ones(), Ones(), Ones(), -1) }

    function Index(vaddr: nat): (i: nat)
      requires entries > 0
      ensures i < entries
    {
      SlotOf(vaddr, pageBits, entries)
    }

    ghost predicate Shape()
      reads this
    {
      && entries > 0 && 6 <= pageBits < width && Ones() / INVALID % 2 == 1
      && table.Length0 == modes && table.Length1 == entries
    }

    ghost predicate Valid()
      reads this, table
    {
      && Shape()
      && (flushAddr == Ones() ==> large == {} && flushMask == width)
      && pageBits < flushMask <= width && flushAddr <= Ones()
      && (forall g :: g in large ==> RegionCovers(flushAddr, flushMask, g))
      && forall m, i, a: nat | 0 <= m < modes && 0 <= i < entries && Serves(table[m, i], a, pageBits)
           :: Index(Masked(a, pageBits)) == i
    }

    function LargeRegion(): Region
      reads this
    {
      Region(flushAddr, flushMask)
    }

    ghost predicate AllEmpty()
      requires table.Length0 == modes && table.Length1 == entries
      reads this, table
    {
      forall m, i :: 0 <= m < modes && 0 <= i < entries ==> table[m, i] == Empty()
    }

    lemma EmptyServesNone(a: nat)
      requires Shape()
      ensures !Serves(Empty(), a, pageBits)
    {
      InvalidNeverHits(Ones(), a, pageBits);
    }

    constructor (width: nat, pageBits: nat, modes: nat, entries: nat)
      requires entries > 0 && 6 <= pageBits < width
      ensures Valid() && fresh(table) && large == {} && AllEmpty() && LargeRegion() == NoRegion(Ones(), width)
      ensures this.width == width && this.pageBits == pageBits && this.modes == modes && this.entries == entries
    {
      OnesAreInvalid(width);
      this.width, this.pageBits, this.modes, this.entries := width, pageBits, modes, entries;
      var ones := Shl(1, width) - 1;
      table := new Entry[modes, entries]((_, _) => Entry(ones, ones, ones, -1));
      flushAddr, flushMask, large := ones, width, {};
      new;
      forall m, i, a: nat | 0 <= m < modes && 0 <= i < entries
        ensures !Serves(table[m, i], a, pageBits)
      {
        EmptyServesNone(a);
      }
    }

    /** tlb_flush */
    method Flush()
      requires Valid()
      modifies this, table
      ensures Valid() && large == {} && LargeRegion() == NoRegion(Ones(), width) && AllEmpty()
      ensures forall m, i, b: nat :: 0 <= m < modes && 0 <= i < entries ==> !Serves(table[m, i], b, pageBits)
    {
      for i := 0 to entries
        modifies table
        invariant forall m, j :: 0 <= m < modes && 0 <= j < i ==> table[m, j] == Empty()
      {
        for m := 0 to modes
          modifies table
          invariant forall n, j :: 0 <= n < modes && 0 <= j < i ==> table[n, j] == Empty()
          invariant forall n :: 0 <= n < m ==> table[n, i] == Empty()
        {
          table[m, i] := Empty();
        }
      }
      flushAddr := Ones();
      flushMask := width;
      large := {};
      forall m, i, b: nat | 0 <= m < modes && 0 <= i < entries
        ensures !Serves(table[m, i], b, pageBits)
      {
        EmptyServesNone(b);
      }
    }

    /** tlb_flush_entry */
    function FlushedEntry(e: Entry, page: nat): Entry {
      if page == PageOf(e.read, pageBits) || page == PageOf(e.write, pageBits) || page == PageOf(e.code, pageBits)
      then Empty() else e
    }

    /** The rest of tlb_flush_page: what serves the page of addr is emptied, in its slot of every MMU mode. */
    method FlushSmall(addr: nat)
      requires Valid()
      modifies table
      ensures Valid()
      ensures forall m, i :: 0 <= m < modes && 0 <= i < entries ==>
                table[m, i] == if old(Serves(table[m, i], addr, pageBits)) then Empty() else old(table[m, i])
    {
      var page := Masked(addr, pageBits);
      var i := Index(page);
      for m := 0 to modes
        modifies table
        invariant forall n, j :: 0 <= n < modes && 0 <= j < entries && !(n < m && j == i) ==>
                  table[n, j] == old(table[n, j])
        invariant forall n :: 0 <= n < m ==> table[n, i] == FlushedEntry(old(table[n, i]), page)
      {
        table[m, i] := FlushedEntry(table[m, i], page);
      }
      forall m, j, b: nat | 0 <= m < modes && 0 <= j < entries && Serves(table[m, j], b, pageBits)
        ensures table[m, j] == old(table[m, j])
      {
        EmptyServesNone(b);
      }
    }

    /** tlb_flush_page: afterwards no entry, in any MMU mode, serves an address of the small page or of a large page
        that holds `addr`; no other translation appears. Either everything is emptied, if the flush region holds the
        address, or exactly what serves the page, and then large pages are still remembered. */
    method FlushPage(addr: nat)
      requires Valid()
      modifies this, table
      ensures Valid()
      ensures old(InRegion(LargeRegion(), addr)) ==>
                large == {} && AllEmpty() && LargeRegion() == NoRegion(Ones(), width)
      ensures !old(InRegion(LargeRegion(), addr)) ==>
                && large == old(large) && LargeRegion() == old(LargeRegion())
                && forall m, i :: 0 <= m < modes && 0 <= i < entries ==>
                     table[m, i] == if old(Serves(table[m, i], addr, pageBits)) then Empty() else old(table[m, i])
      ensures forall m, i, b: nat ::
                0 <= m < modes && 0 <= i < entries && Masked(b, pageBits) == Masked(addr, pageBits) ==>
                !Serves(table[m, i], b, pageBits)
      ensures forall g, m, i, b: nat | g in old(large) && Contains(g, addr) && Contains(g, b) && 0 <= m < modes
              && 0 <= i < entries
                :: !Serves(table[m, i], b, pageBits)
    {
      if Masked(addr, flushMask) == flushAddr {
        Flush();
        return;
      }
      forall g | g in large
        ensures !Contains(g, addr)
      {
        if Contains(g, addr) { CoveredAddress(flushAddr, flushMask, g, addr); }
      }
      FlushSmall(addr);
      forall m, i, b: nat | 0 <= m < modes && 0 <= i < entries && Masked(b, pageBits) == Masked(addr, pageBits)
        ensures !Serves(table[m, i], b, pageBits)
      {
        EmptyServesNone(b);
      }
    }

    /** tlb_add_large_page: the region grows to take in the new page and keeps every earlier one. */
    method AddLargePage(vaddr: nat, k: nat)
      requires Valid() && pageBits < k < width && vaddr < Shl(1, width)
      modifies this`flushAddr, this`flushMask, this`large
      ensures Valid() && large == old(large) + {GuestPage(vaddr, k)}
      ensures LargeRegion() == Grown(old(LargeRegion()), GuestPage(vaddr, k), Ones(), width)
    {
      if flushAddr == Ones() {
        flushAddr := Masked(vaddr, k);
        flushMask := k;
        large := large + {GuestPage(vaddr, k)};
        MaskedBelowOnes(vaddr, k, width);
        return;
      }
      var mask := WidenMask(flushAddr, vaddr, if k > flushMask then k else flushMask, width);
      forall g | g in large + {GuestPage(vaddr, k)}
        ensures RegionCovers(Masked(flushAddr, mask), mask, g)
      {
        if g in large { Widened(flushAddr, flushMask, mask, g); }
      }
      MaskedBelowOnes(flushAddr, mask, width);
      flushAddr := Masked(flushAddr, mask);
      flushMask := mask;
      large := large + {GuestPage(vaddr, k)};
    }

    /** tlb_set_page: the slot of vaddr now serves exactly that page, for the accesses that prot allows,
        and no other slot changes. */
    method SetPage(vaddr: nat, prot: Prot, mode: nat, k: nat, mem: Backing, addend: int)
      requires Valid() && mode < modes && pageBits <= k < width
      requires vaddr < Shl(1, width) && Masked(vaddr, pageBits) == vaddr
      modifies this, table
      ensures Valid() && large == if k != pageBits then old(large) + {GuestPage(vaddr, k)} else old(large)
      ensures LargeRegion() == if k != pageBits then Grown(old(LargeRegion()), GuestPage(vaddr, k), Ones(), width)
                               else old(LargeRegion())
      ensures forall m, i :: 0 <= m < modes && 0 <= i < entries && !(m == mode && i == Index(vaddr)) ==>
                table[m, i] == old(table[m, i])
      ensures forall b: nat ::
                (Hits(table[mode, Index(vaddr)].read, b, pageBits) <==> prot.read && Masked(b, pageBits) == vaddr)
      ensures forall b: nat ::
                (Hits(table[mode, Index(vaddr)].write, b, pageBits) <==> prot.write && Masked(b, pageBits) == vaddr)
      ensures forall b: nat ::
                (Hits(table[mode, Index(vaddr)].code, b, pageBits) <==> prot.exec && Masked(b, pageBits) == vaddr)
      ensures table[mode, Index(vaddr)] == NewEntry(vaddr, prot, mem, addend, Ones())
      // The flag-free values, which let an access bypass the slow path:
      ensures table[mode, Index(vaddr)].read == vaddr <==> prot.read && (mem.isRam || mem.isRomd) && !mem.watched
      ensures table[mode, Index(vaddr)].write == vaddr <==>
                prot.write && mem.isRam && !mem.isRomd && !mem.readonly && mem.dirty && !mem.watched
    {
      if k != pageBits {
        AddLargePage(vaddr, k);
      }
      var i := Index(vaddr);
      var te := NewEntry(vaddr, prot, mem, addend, Ones());
      forall b: nat
        ensures Hits(te.read, b, pageBits) <==> prot.read && Masked(b, pageBits) == vaddr
        ensures Hits(te.write, b, pageBits) <==> prot.write && Masked(b, pageBits) == vaddr
        ensures Hits(te.code, b, pageBits) <==> prot.exec && Masked(b, pageBits) == vaddr
      {
        NewEntryHits(vaddr, prot, mem, addend, Ones(), b, pageBits);
      }
      assert vaddr != Ones() by { MaskedBelowOnes(vaddr, pageBits, width); }
      table[mode, i] := te;
    }
  }

  /** The PAGE_READ, PAGE_WRITE and PAGE_EXEC bits */
  datatype Prot = Prot(read: bool, write: bool, exec: bool)

  /** What tlb_set_page asks of the section behind the page: kind of region, read-only, clean or dirty,
      and whether a watchpoint traps it. */
  datatype Backing = Backing(isRam: bool, isRomd: bool, readonly: bool, dirty: bool, watched: bool)

  /** vaddr | flags, for a page-aligned vaddr */
  function Flagged(vaddr: nat, mmio: bool, notdirty: bool): nat {
    vaddr + (if mmio then MMIO else 0) + (if notdirty then NOTDIRTY else 0)
  }

  function NewEntry(vaddr: nat, prot: Prot, mem: Backing, addend: int, ones: nat): Entry {
    var io := !mem.isRam && !mem.isRomd;
    var address := Flagged(vaddr, io || mem.watched, false);
    Entry(
      if prot.read then address else ones,
      if !prot.write then ones
      else if (mem.isRam && mem.readonly) || mem.isRomd then Flagged(vaddr, true, false)
      else if mem.isRam && !mem.dirty then Flagged(vaddr, io || mem.watched, true)
      else address,
      if prot.exec then Flagged(vaddr, io, false) else ones,
      addend)
  }

  lemma NewEntryHits(vaddr: nat, prot: Prot, mem: Backing, addend: int, ones: nat, b: nat, pageBits: nat)
    requires pageBits >= 6 && Masked(vaddr, pageBits) == vaddr && ones / INVALID % 2 == 1
    ensures var te := NewEntry(vaddr, prot, mem, addend, ones);
            && (Hits(te.read, b, pageBits) <==> prot.read && Masked(b, pageBits) == vaddr)
            && (Hits(te.write, b, pageBits) <==> prot.write && Masked(b, pageBits) == vaddr)
            && (Hits(te.code, b, pageBits) <==> prot.exec && Masked(b, pageBits) == vaddr)
  {
    InvalidNeverHits(ones, b, pageBits);
    FlaggedPageHits(vaddr, 0, b, pageBits);
    FlaggedPageHits(vaddr, MMIO, b, pageBits);
    FlaggedPageHits(vaddr, NOTDIRTY, b, pageBits);
    FlaggedPageHits(vaddr, NOTDIRTY + MMIO, b, pageBits);
  }

  /** The fast path is for memory that needs no attention: reads of RAM and ROM without watchpoints, writes to RAM that
      is writable and dirty already, and code in RAM and ROM. Of the others, exactly writes to clean RAM are for dirty
      tracking. */
  lemma NewEntrySlow(vaddr: nat, prot: Prot, mem: Backing, addend: int, ones: nat, pageBits: nat)
    requires pageBits >= 6 && Masked(vaddr, pageBits) == vaddr && ones / INVALID % 2 == 1
    ensures var te := NewEntry(vaddr, prot, mem, addend, ones);
            && te.addend == addend
            && (te.read == vaddr <==> prot.read && (mem.isRam || mem.isRomd) && !mem.watched)
            && (te.write == vaddr <==>
               prot.write && mem.isRam && !mem.isRomd && !mem.readonly && mem.dirty && !mem.watched)
            && (te.code == vaddr <==> prot.exec && (mem.isRam || mem.isRomd))
            && (prot.write ==> (te.write - vaddr in {NOTDIRTY, NOTDIRTY + MMIO}
                                <==> mem.isRam && !mem.isRomd && !mem.readonly && !mem.dirty))
  {
    InvalidNeverHits(ones, vaddr, pageBits);
    FlaggedPageHits(vaddr, 0, vaddr, pageBits);
  }

  // ---- Whole runs ---------------------------------------------------------------------------------

  datatype Op =
    | Set(vaddr: nat, prot: Prot, mode: nat, k: nat, mem: Backing, addend: int)
    | FlushPage(addr: nat)
    | Flush
  {
    /** The guest page, small or large, that tlb_set_page is called for */
    function Page(): GuestPage
      requires Set?
    {
      GuestPage(vaddr, k)
    }
  }

  ghost predicate OpOk(tlb: CpuTlb, op: Op) {
    op.Set? ==> op.mode < tlb.modes && tlb.pageBits <= op.k < tlb.width && op.vaddr < Shl(1, tlb.width)
                && Masked(op.vaddr, tlb.pageBits) == op.vaddr
  }

  /** Page g is no longer to be translated after this operation. */
  predicate Ends(op: Op, g: GuestPage) { op.Flush? || (op.FlushPage? && Contains(g, op.addr)) }

  /** Every slot that serves an address comes from a guest page that holds it, which is small or remembered as large. */
  ghost predicate OriginsOk(tlb: CpuTlb, origin: map<(int, int), GuestPage>)
    reads tlb, tlb.table
  {
    && tlb.Shape()
    && forall m, i, b: nat | 0 <= m < tlb.modes && 0 <= i < tlb.entries && Serves(tlb.table[m, i], b, tlb.pageBits) ::
         (m, i) in origin && OriginOk(tlb, origin[(m, i)], b)
  }

  ghost predicate OriginOk(tlb: CpuTlb, g: GuestPage, b: nat)
    reads tlb
  {
    g.vaddr == Masked(b, tlb.pageBits) && g.k >= tlb.pageBits && (g.k == tlb.pageBits || g in tlb.large)
  }

  lemma OriginContains(tlb: CpuTlb, g: GuestPage, b: nat)
    requires OriginOk(tlb, g, b)
    ensures Contains(g, b)
  {
    MaskedSame(b, b, tlb.pageBits);
    MaskedSame(b, g.vaddr, tlb.pageBits);
    ShrMore(b, g.vaddr, tlb.pageBits, g.k);
  }

  /** After a flush of a page, or of everything, what an entry has served before it serves only if its origin is
      spared. */
  lemma SparedOrigin(tlb: CpuTlb, g: GuestPage, a: nat, b: nat)
    requires OriginOk(tlb, g, b) && Contains(g, a)
    ensures g in tlb.large || Masked(b, tlb.pageBits) == Masked(a, tlb.pageBits)
  {
    if g.k == tlb.pageBits {
      MaskedSame(b, b, tlb.pageBits);
      MaskedSame(b, g.vaddr, tlb.pageBits);
      MaskedSame(a, b, tlb.pageBits);
    }
  }

  function EntryOf(op: Op, ones: nat): Entry
    requires op.Set?
  {
    NewEntry(op.vaddr, op.prot, op.mem, op.addend, ones)
  }

  /** The operation fills slot (m, i). */
  predicate Fills(op: Op, m: int, i: int, pageBits: nat, entries: nat)
    requires entries > 0
  {
    op.Set? && op.mode == m && SlotOf(op.vaddr, pageBits, entries) == i
  }

  /** The operation empties a slot that holds e: a flush of any address in the region empties all of them. */
  predicate Clears(op: Op, r: Region, e: Entry, pageBits: nat) {
    op.Flush? || (op.FlushPage? && (InRegion(r, op.addr) || Serves(e, op.addr, pageBits)))
  }

  function SlotAfter(e: Entry, op: Op, m: int, i: int, r: Region, pageBits: nat, entries: nat, ones: nat): Entry
    requires entries > 0
  {
    if Fills(op, m, i, pageBits, entries) then EntryOf(op, ones)
    else if Clears(op, r, e, pageBits) then Entry(ones, ones, ones, -1)
    else e
  }

  function RegionAfter(r: Region, op: Op, pageBits: nat, ones: nat, width: nat): Region {
    match op
    case Set(_, _, _, k, _, _) => if k != pageBits then Grown(r, op.Page(), ones, width) else r
    case FlushPage(addr) => if InRegion(r, addr) then NoRegion(ones, width) else r
    case Flush => NoRegion(ones, width)
  }

  /** The region and what slot (m, i) holds after the first n operations from an empty TLB: the slot depends on the
      others only through the region, and the region only on the operations. */
  function RegionAt(script: seq<Op>, n: nat, pageBits: nat, ones: nat, width: nat): Region
    requires n <= |script|
  {
    if n == 0 then NoRegion(ones, width)
    else RegionAfter(RegionAt(script, n - 1, pageBits, ones, width), script[n - 1], pageBits, ones, width)
  }

  function SlotAt(script: seq<Op>, n: nat, m: int, i: int, pageBits: nat, entries: nat, ones: nat, width: nat): Entry
    requires n <= |script| && entries > 0
  {
    if n == 0 then Entry(ones, ones, ones, -1)
    else SlotAfter(SlotAt(script, n - 1, m, i, pageBits, entries, ones, width), script[n - 1], m, i,
                   RegionAt(script, n - 1, pageBits, ones, width), pageBits, entries, ones)
  }

  /** An entry stays until its slot is filled again, all is flushed, or an address is flushed that it serves or that
      lies in the region of that moment. */
  lemma {:induction false} Stays(script: seq<Op>, n: nat, end: nat, m: int, i: int, pageBits: nat, entries: nat,
                                 ones: nat, width: nat)
    requires n < end <= |script| && entries > 0 && Fills(script[n], m, i, pageBits, entries)
    requires forall j :: n < j < end ==>
               && !Fills(script[j], m, i, pageBits, entries)
               && !Clears(script[j], RegionAt(script, j, pageBits, ones, width), EntryOf(script[n], ones), pageBits)
    ensures SlotAt(script, end, m, i, pageBits, entries, ones, width) == EntryOf(script[n], ones)
    decreases end
  {
    if end > n + 1 { Stays(script, n, end - 1, m, i, pageBits, entries, ones, width); }
  }

  method StepFlushPage(tlb: CpuTlb, addr: nat, ghost origin: map<(int, int), GuestPage>)
    requires tlb.Valid() && OriginsOk(tlb, origin)
    modifies tlb, tlb.table
    ensures tlb.Valid() && OriginsOk(tlb, origin)
    ensures tlb.LargeRegion() == RegionAfter(old(tlb.LargeRegion()), FlushPage(addr), tlb.pageBits, tlb.Ones(),
            tlb.width)
    ensures forall m, i :: 0 <= m < tlb.modes && 0 <= i < tlb.entries ==>
              tlb.table[m, i] == if Clears(FlushPage(addr), old(tlb.LargeRegion()), old(tlb.table[m, i]), tlb.pageBits)
                                 then tlb.Empty() else old(tlb.table[m, i])
    ensures forall m, i, b: nat | 0 <= m < tlb.modes && 0 <= i < tlb.entries
            && Serves(tlb.table[m, i], b, tlb.pageBits) ::
              !Contains(origin[(m, i)], addr)
  {
    forall m, i, b: nat | 0 <= m < tlb.modes && 0 <= i < tlb.entries && Serves(tlb.table[m, i], b, tlb.pageBits)
      ensures OriginOk(tlb, origin[(m, i)], b) && Contains(origin[(m, i)], b)
      ensures Contains(origin[(m, i)], addr) ==>
                origin[(m, i)] in tlb.large || Masked(b, tlb.pageBits) == Masked(addr, tlb.pageBits)
    {
      OriginContains(tlb, origin[(m, i)], b);
      if Contains(origin[(m, i)], addr) { SparedOrigin(tlb, origin[(m, i)], addr, b); }
    }
    tlb.FlushPage(addr);
    forall m, i, b: nat | 0 <= m < tlb.modes && 0 <= i < tlb.entries && Serves(tlb.table[m, i], b, tlb.pageBits)
      ensures tlb.table[m, i] == old(tlb.table[m, i]) && tlb.large == old(tlb.large)
    {
      tlb.EmptyServesNone(b);
    }
  }

  /** One operation, in any state: afterwards no slot serves any part of a guest page, small or large, that it ends. */
  method Step(tlb: CpuTlb, op: Op, ghost origin0: map<(int, int), GuestPage>)
    returns (ghost origin: map<(int, int), GuestPage>)
    requires tlb.Valid() && OriginsOk(tlb, origin0) && OpOk(tlb, op)
    modifies tlb, tlb.table
    ensures tlb.Valid() && OriginsOk(tlb, origin)
    ensures origin == if op.Set? then origin0[(op.mode, tlb.Index(op.vaddr)) := op.Page()] else origin0
    ensures tlb.LargeRegion() == RegionAfter(old(tlb.LargeRegion()), op, tlb.pageBits, tlb.Ones(), tlb.width)
    ensures forall m, i :: 0 <= m < tlb.modes && 0 <= i < tlb.entries ==>
              tlb.table[m, i] == SlotAfter(old(tlb.table[m, i]), op, m, i, old(tlb.LargeRegion()), tlb.pageBits,
                                           tlb.entries, tlb.Ones())
    ensures forall m, i, b: nat | 0 <= m < tlb.modes && 0 <= i < tlb.entries
            && Serves(tlb.table[m, i], b, tlb.pageBits) ::
              !Ends(op, origin[(m, i)])
  {
    origin := origin0;
    match op {
      case Set(vaddr, prot, mode, k, mem, addend) =>
        tlb.SetPage(vaddr, prot, mode, k, mem, addend);
        origin := origin0[(mode, tlb.Index(vaddr)) := op.Page()];
      case FlushPage(addr) => StepFlushPage(tlb, addr, origin0);
      case Flush => tlb.Flush();
    }
  }

  /** Of the first end operations, the n-th filled slot (m, i); no later one ends its guest page, and none fills the
      slot again. */
  ghost predicate Live(script: seq<Op>, n: nat, end: nat, m: int, i: int, pageBits: nat, entries: nat)
    requires end <= |script| && entries > 0
  {
    && n < end && Fills(script[n], m, i, pageBits, entries)
    && forall j :: n < j < end ==> !Ends(script[j], script[n].Page()) && !Fills(script[j], m, i, pageBits, entries)
  }

  lemma LiveOn(script: seq<Op>, n: nat, end: nat, m: int, i: int, pageBits: nat, entries: nat)
    requires end < |script| && entries > 0 && Live(script, n, end, m, i, pageBits, entries)
    requires !Ends(script[end], script[n].Page()) && !Fills(script[end], m, i, pageBits, entries)
    ensures Live(script, n, end + 1, m, i, pageBits, entries)
  {
  }

  /** What slot (m, i), which holds e and serves address b, has to do with the first end operations */
  ghost predicate SlotOk(script: seq<Op>, end: nat, since: map<(int, int), nat>, m: int, i: int, e: Entry, b: nat,
                         pageBits: nat, entries: nat, ones: nat)
    requires end <= |script| && entries > 0
  {
    && (m, i) in since
    && var n := since[(m, i)];
    && Live(script, n, end, m, i, pageBits, entries)
    && e == EntryOf(script[n], ones) && script[n].vaddr == Masked(b, pageBits)
  }

  /** What holds after the first end operations: each slot that serves an address holds a live entry for it. */
  ghost predicate RunOk(tlb: CpuTlb, script: seq<Op>, end: nat, since: map<(int, int), nat>)
    requires end <= |script| && tlb.Shape()
    reads tlb, tlb.table
  {
    forall m, i, b: nat | 0 <= m < tlb.modes && 0 <= i < tlb.entries && Serves(tlb.table[m, i], b, tlb.pageBits) ::
      SlotOk(script, end, since, m, i, tlb.table[m, i], b, tlb.pageBits, tlb.entries, tlb.Ones())
  }

  /** The origins are those that the script says. */
  ghost predicate SinceOk(script: seq<Op>, end: nat, origin: map<(int, int), GuestPage>, since: map<(int, int), nat>)
    requires end <= |script|
  {
    forall s | s in origin :: s in since && since[s] < end && script[since[s]].Set?
        && origin[s] == script[since[s]].Page()
  }

  /** The TLB is as the first n operations say. */
  ghost predicate TableOk(tlb: CpuTlb, script: seq<Op>, n: nat)
    requires n <= |script| && tlb.Shape()
    reads tlb, tlb.table
  {
    && tlb.LargeRegion() == RegionAt(script, n, tlb.pageBits, tlb.Ones(), tlb.width)
    && forall m, i :: 0 <= m < tlb.modes && 0 <= i < tlb.entries ==>
         tlb.table[m, i] == SlotAt(script, n, m, i, tlb.pageBits, tlb.entries, tlb.Ones(), tlb.width)
  }

  method RunStep(tlb: CpuTlb, script: seq<Op>, n: nat, ghost origin0: map<(int, int), GuestPage>,
                 ghost since0: map<(int, int), nat>)
    returns (ghost origin: map<(int, int), GuestPage>, ghost since: map<(int, int), nat>)
    requires n < |script| && tlb.Valid() && OpOk(tlb, script[n])
    requires OriginsOk(tlb, origin0) && RunOk(tlb, script, n, since0) && SinceOk(script, n, origin0, since0)
    requires TableOk(tlb, script, n)
    modifies tlb, tlb.table
    ensures tlb.Valid()
    ensures OriginsOk(tlb, origin) && RunOk(tlb, script, n + 1, since) && SinceOk(script, n + 1, origin, since)
    ensures TableOk(tlb, script, n + 1)
  {
    origin := Step(tlb, script[n], origin0);
    since := if script[n].Set? then since0[(script[n].mode, tlb.Index(script[n].vaddr)) := n] else since0;
    forall m, i, b: nat | 0 <= m < tlb.modes && 0 <= i < tlb.entries && Serves(tlb.table[m, i], b, tlb.pageBits)
      ensures SlotOk(script, n + 1, since, m, i, tlb.table[m, i], b, tlb.pageBits, tlb.entries, tlb.Ones())
    {
      tlb.EmptyServesNone(b);
      if !Fills(script[n], m, i, tlb.pageBits, tlb.entries) {
        LiveOn(script, since0[(m, i)], n, m, i, tlb.pageBits, tlb.entries);
      }
    }
  }

  /** Any run from an empty TLB: each slot holds what the operations say (SlotAt). An address is served only by an entry
      that tlb_set_page has made for the page that
      holds it, and since then neither has its guest page, small or large, been flushed by any of its addresses, nor
      has there been a full flush, nor has the slot been filled again. */
  method Run(tlb: CpuTlb, script: seq<Op>) returns (ghost since: map<(int, int), nat>)
    requires tlb.Valid() && tlb.AllEmpty() && tlb.LargeRegion() == NoRegion(tlb.Ones(), tlb.width)
    requires forall n :: 0 <= n < |script| ==> OpOk(tlb, script[n])
    modifies tlb, tlb.table
    ensures tlb.Valid() && TableOk(tlb, script, |script|) && RunOk(tlb, script, |script|, since)
  {
    ghost var origin: map<(int, int), GuestPage> := map[];
    since := map[];
    forall m, i, b: nat | 0 <= m < tlb.modes && 0 <= i < tlb.entries
      ensures !Serves(tlb.table[m, i], b, tlb.pageBits)
    {
      tlb.EmptyServesNone(b);
    }
    for n := 0 to |script|
      invariant tlb.Valid() && OriginsOk(tlb, origin) && RunOk(tlb, script, n, since)
                && SinceOk(script, n, origin, since) && TableOk(tlb, script, n)
    {
      origin, since := RunStep(tlb, script, n, origin, since);
    }
  }

  /** The loop of tlb_add_large_page: widen the mask until both addresses agree on it, and no further. */
  method WidenMask(a: nat, b: nat, mask0: nat, width: nat) returns (mask: nat)
    requires mask0 <= width && a < Shl(1, width) && b < Shl(1, width)
    ensures mask0 <= mask <= width && Masked(a, mask) == Masked(b, mask)
    ensures forall j :: mask0 <= j < mask ==> Masked(a, j) != Masked(b, j)
    ensures mask == Agreed(a, b, mask0, width)
  {
    mask := mask0;
    ShrOfSmall(a, width);
    ShrOfSmall(b, width);
    while Masked(a, mask) != Masked(b, mask)
      invariant mask0 <= mask <= width
      invariant forall j :: mask0 <= j < mask ==> Masked(a, j) != Masked(b, j)
      invariant Agreed(a, b, mask, width) == Agreed(a, b, mask0, width)
      decreases width - mask
    {
      mask := mask + 1;
    }
  }

  lemma MaskedBelowOnes(a: nat, k: nat, width: nat)
    requires 6 <= k && 6 <= width && a < Shl(1, width)
    ensures Masked(a, k) < Shl(1, width) - 1
  {
    MaskedSame(a, a, k);
    ShlMultiple(Shr(a, k), k);
    ShlMultiple(1, width);
  }

  lemma {:induction false} OnesAreInvalid(width: nat)
    requires width >= 6
    ensures Shl(1, width) >= 1 && (Shl(1, width) - 1) / INVALID % 2 == 1
  {
    ShlMultiple(1, width);
    ShlGrows(1, width);
  }
}
