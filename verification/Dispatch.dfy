/** How exec.c turns a list of memory sections into a dispatch table (`mem_begin`, `mem_add`) and
    finds the section behind an address again (`address_space_translate_internal`). */
module Dispatch {
  import opened Arith
  import opened Options
  import opened PhysMap

  /** Memory regions: the four built-in ones, the region inside a subpage_t, and all others. */
  datatype Region = Unassigned | NotDirty | Rom | Watch | SubpageRegion(id: nat) | Memory(name: nat)

  /** MemoryRegionSection: `start` in the address space, `offset` in the region. */
  datatype Section = Section(mr: Region, start: nat, offset: nat, size: nat)

  predicate Covers(s: Section, a: nat) { s.start <= a < s.start + s.size }

  /** subpage_t: a section number for every byte of one page. */
  datatype Subpage = Subpage(base: nat, sub: seq<nat>)

  /** Where an address leads: a region, and what to add to the address. */
  datatype Target = Target(mr: Region, delta: int)

  function TargetOf(s: Section): Target { Target(s.mr, s.offset - s.start) }

  // ---- Pages ---------------------------------------------------------------------------------

  predicate InPage(a: nat, p: nat, size: nat) { p * size <= a < p * size + size }

  lemma PageOf(a: nat, size: nat)
    requires size > 0
    ensures InPage(a, a / size, size) && a == a / size * size + a % size
    ensures a - a % size == a / size * size && (a - a % size) / size == a / size
  {
    PageUnique(a - a % size, a / size, size);
  }

  lemma PageUnique(a: nat, p: nat, size: nat)
    requires size > 0 && InPage(a, p, size)
    ensures a / size == p && a % size == a - p * size
  {
    DivIs(a, p, a - p * size, size);
  }

  /** Below the limit in bytes is below the limit in pages. */
  lemma PageBelow(a: nat, pages: nat, size: nat)
    requires size > 0 && a < pages * size
    ensures a / size < pages
  {
    PageOf(a, size);
    if a / size >= pages { MulMonotone(pages, a / size, size); }
  }

  // ---- The dispatch table ---------------------------------------------------------------------

  /** Section number k answers for an address whose owner is o. */
  ghost predicate Answers(sections: seq<Section>, k: nat, o: Option<Target>) {
    && k < |sections| && !sections[k].mr.SubpageRegion?
    && match o
       case None => k == UNASSIGNED
       case Some(t) => TargetOf(sections[k]) == t
  }

  /** Leaf f is right for page p: nothing of an unassigned page is owned, a subpage answers byte by
      byte and has an owned byte, and any other section owns the whole page. */
  ghost predicate PageOk(f: Found, p: nat, size: nat, sections: seq<Section>, subpages: seq<Subpage>,
                         owner: nat -> Option<Target>)
  {
    && f.ptr < |sections|
    && if f.ptr == UNASSIGNED then
         f.level == 0 && forall a: nat :: InPage(a, p, size) ==> owner(a) == None
       else if sections[f.ptr].mr.SubpageRegion? then
         var id := sections[f.ptr].mr.id;
         && id < |subpages| && subpages[id].base == p * size && |subpages[id].sub| == size
         && (exists a: nat :: InPage(a, p, size) && owner(a).Some?)
         && forall a: nat :: InPage(a, p, size) ==> Answers(sections, subpages[id].sub[a - p * size], owner(a))
       else
         forall a: nat :: InPage(a, p, size) ==> owner(a).Some? && Answers(sections, f.ptr, owner(a))
  }

  /** A page keeps its answers when sections are added and neither its subpage nor its owners change. */
  lemma PageKept(f: Found, p: nat, size: nat, sections: seq<Section>, subpages: seq<Subpage>,
                 owner: nat -> Option<Target>,
                 sections': seq<Section>, subpages': seq<Subpage>, owner': nat -> Option<Target>)
    requires PageOk(f, p, size, sections, subpages, owner)
    requires sections <= sections' && |subpages| <= |subpages'|
    requires forall i :: 0 <= i < |subpages| && subpages[i].base == p * size ==> subpages'[i] == subpages[i]
    requires forall a: nat :: InPage(a, p, size) ==> owner'(a) == owner(a)
    ensures PageOk(f, p, size, sections', subpages', owner')
  {
    if f.ptr != UNASSIGNED && sections[f.ptr].mr.SubpageRegion? {
      var a: nat :| InPage(a, p, size) && owner(a).Some?;
      assert owner'(a).Some?;
    }
  }

  /** The owners after section s has been added. */
  function Claim(owner: nat -> Option<Target>, s: Section): nat -> Option<Target> {
    (a: nat) => if Covers(s, a) then Some(TargetOf(s)) else owner(a)
  }

  /** Compared with owner0, the bytes of s before `end` have been given to s. */
  ghost predicate Given(owner: nat -> Option<Target>, owner0: nat -> Option<Target>, s: Section, end: nat) {
    forall a: nat :: owner(a) == if s.start <= a < end then Some(TargetOf(s)) else owner0(a)
  }

  lemma GivenMore(owner: nat -> Option<Target>, owner0: nat -> Option<Target>, s: Section, now: Section)
    requires s.start <= now.start && TargetOf(now) == TargetOf(s) && Given(owner, owner0, s, now.start)
    ensures Given(Claim(owner, now), owner0, s, now.start + now.size)
  {
  }

  /** Page p is served by subpage number id, which answers rightly for every byte. */
  ghost predicate Subpaged(f: Found, p: nat, size: nat, sections: seq<Section>, subpages: seq<Subpage>,
                           owner: nat -> Option<Target>, id: nat)
  {
    && f.ptr != UNASSIGNED && f.ptr < |sections| && sections[f.ptr].mr == SubpageRegion(id)
    && id < |subpages| && subpages[id].base == p * size && |subpages[id].sub| == size
    && forall a: nat :: InPage(a, p, size) ==> Answers(sections, subpages[id].sub[a - p * size], owner(a))
  }

  /** A subpage that has taken section number k for the bytes of s answers rightly for its page. */
  lemma SubpageTaken(f: Found, p: nat, size: nat, sections: seq<Section>, subpages: seq<Subpage>,
                     owner: nat -> Option<Target>,
                     id: nat, s: Section, sections': seq<Section>, subpages': seq<Subpage>)
    requires size > 0 && Subpaged(f, p, size, sections, subpages, owner, id)
    requires s.size > 0 && p * size <= s.start && s.start + s.size <= p * size + size && !s.mr.SubpageRegion?
    requires sections' == sections + [s] && |subpages'| == |subpages|
    requires subpages'[id].base == subpages[id].base && |subpages'[id].sub| == size
    requires forall i :: 0 <= i < size ==>
               subpages'[id].sub[i] == if s.start <= p * size + i < s.start + s.size then |sections|
                 else subpages[id].sub[i]
    ensures PageOk(f, p, size, sections', subpages', Claim(owner, s))
  {
    var owner' := Claim(owner, s);
    assert InPage(s.start, p, size) && owner'(s.start).Some?;
  }

  /** A section within page p covers nothing of another page. */
  lemma OtherPage(s: Section, p: nat, q: nat, size: nat)
    requires size > 0 && p != q && p * size <= s.start && s.start + s.size <= p * size + size
    ensures forall a: nat :: InPage(a, q, size) ==> !Covers(s, a)
    ensures p * size != q * size
  {
    PageUnique(p * size, p, size);
    PageUnique(q * size, q, size);
    forall a: nat | InPage(a, q, size)
      ensures !Covers(s, a)
    {
      if Covers(s, a) {
        PageUnique(a, q, size);
        PageUnique(a, p, size);
      }
    }
  }

  /** n whole pages from page q on hold exactly the bytes of those pages. */
  lemma WholePages(a: nat, p: nat, q: nat, n: nat, size: nat)
    requires InPage(a, p, size)
    ensures q * size <= a < q * size + n * size <==> q <= p < q + n
  {
    assert (q + n) * size == q * size + n * size;
    if p < q {
      MulMonotone(p + 1, q, size);
    } else if p >= q + n {
      MulMonotone(q + n, p, size);
    } else {
      MulMonotone(q, p, size);
      MulMonotone(p + 1, q + n, size);
    }
  }

  class AddressSpaceDispatch {
    const pageSize: nat
    const map_: PhysPageMap
    var sections: seq<Section>
    var subpages: seq<Subpage>
    /** Which section each address has been given to. */
    ghost var owner: nat -> Option<Target>

    ghost const limit: nat

    ghost predicate Valid()
      reads this, map_
    {
      && pageSize > 0 && map_.Valid() && limit == Step(map_.levels) * pageSize
      && 4 <= |sections| && sections[UNASSIGNED] == Section(Unassigned, 0, 0, sections[UNASSIGNED].size)
      && forall p: nat :: p < |map_.Pages()| ==>
           PageOk(map_.Pages()[p], p, pageSize, sections, subpages, owner)
    }

    /** mem_begin */
    constructor (levels: nat, pageSize: nat)
      requires levels > 0 && pageSize > 0
      ensures Valid() && fresh(map_) && map_.levels == levels && this.pageSize == pageSize
      ensures |sections| == 4 && subpages == [] && map_.nodes == []
      ensures forall a: nat :: owner(a) == None
    {
      this.pageSize := pageSize;
      map_ := new PhysPageMap(levels);
      sections := [Section(Unassigned, 0, 0, 0x1_0000_0000_0000_0000), Section(NotDirty, 0, 0, 0x1_0000_0000_0000_0000),
                   Section(Rom, 0, 0, 0x1_0000_0000_0000_0000), Section(Watch, 0, 0, 0x1_0000_0000_0000_0000)];
      subpages := [];
      owner := _ => None;
      limit := Step(levels) * pageSize;
    }

    /** phys_section_add: the new section's number, or an abort when the table is full */
    method SectionAdd(s: Section) returns (ok: bool, n: nat)
      modifies this`sections
      ensures ok <==> old(|sections|) < pageSize
      ensures n == old(|sections|)
      ensures sections == if ok then old(sections) + [s] else old(sections)
    {
      n := |sections|;
      ok := n < pageSize;
      if ok {
        sections := sections + [s];
      }
    }

    /** The section that the table holds for an address, subpages resolved. */
    ghost function Resolve(addr: nat): Section
      requires Valid() && addr < limit
      reads this, map_
    {
      PageBelow(addr, Step(map_.levels), pageSize); PageOf(addr, pageSize);
      var p := addr / pageSize;
      assert PageOk(map_.Pages()[p], p, pageSize, sections, subpages, owner);
      var section := sections[map_.Pages()[p].ptr];
      if section.mr.SubpageRegion? then sections[subpages[section.mr.id].sub[addr - p * pageSize]] else section
    }

    lemma ResolvesToOwner(addr: nat)
      requires Valid() && addr < limit
      ensures TargetOf(Resolve(addr)) == if owner(addr).Some? then owner(addr).value else Target(Unassigned, 0)
    {
      PageBelow(addr, Step(map_.levels), pageSize);
      PageOf(addr, pageSize);
      assert PageOk(map_.Pages()[addr / pageSize], addr / pageSize, pageSize, sections, subpages, owner);
    }

    /** address_space_translate_internal with resolve_subpage set */
    method Translate(addr: nat) returns (mr: Region, xlat: int)
      requires Valid() && addr < limit
      ensures Target(mr, xlat - addr) == TargetOf(Resolve(addr))
      ensures owner(addr).Some? ==> mr == owner(addr).value.mr && xlat == addr + owner(addr).value.delta
      ensures owner(addr).None? ==> mr == Unassigned && xlat == addr
    {
      PageBelow(addr, Step(map_.levels), pageSize);
      PageOf(addr, pageSize);
      ResolvesToOwner(addr);
      var ptr := map_.Find(addr / pageSize);
      assert PageOk(map_.Pages()[addr / pageSize], addr / pageSize, pageSize, sections, subpages, owner);
      var section := sections[ptr];
      if section.mr.SubpageRegion? {
        section := sections[subpages[section.mr.id].sub[addr % pageSize]];
      }
      mr := section.mr;
      xlat := addr - section.start + section.offset;
    }

    /** subpage_register */
    method SubpageRegister(id: nat, start: nat, end: nat, section: nat) returns (ret: int)
      requires id < |subpages| && |subpages[id].sub| == pageSize
      modifies this`subpages
      ensures ret == -1 <==> start >= pageSize || end >= pageSize
      ensures ret == -1 ==> subpages == old(subpages)
      ensures |subpages| == old(|subpages|)
      ensures forall i :: 0 <= i < |subpages| && i != id ==> subpages[i] == old(subpages[i])
      ensures subpages[id].base == old(subpages[id].base) && |subpages[id].sub| == pageSize
      ensures ret != -1 ==> forall i :: 0 <= i < pageSize ==>
                subpages[id].sub[i] == if start <= i <= end then section else old(subpages[id].sub[i])
    {
      if start >= pageSize || end >= pageSize {
        return -1;
      }
      var idx := start;
      while idx <= end
        invariant start <= idx <= pageSize && |subpages| == old(|subpages|)
        invariant forall i :: 0 <= i < |subpages| && i != id ==> subpages[i] == old(subpages[i])
        invariant subpages[id].base == old(subpages[id].base) && |subpages[id].sub| == pageSize
        invariant forall i :: 0 <= i < pageSize ==>
                    subpages[id].sub[i] == if start <= i <= end && i < idx then section else old(subpages[id].sub[i])
      {
        subpages := subpages[id := subpages[id].(sub := subpages[id].sub[idx := section])];
        idx := idx + 1;
      }
      return 0;
    }

    /** All pages but one are right, and that one has a subpage. */
    ghost predicate ValidBut(page: nat, id: nat)
      reads this, map_
    {
      && pageSize > 0 && map_.Valid() && limit == Step(map_.levels) * pageSize
      && 4 <= |sections| && sections[UNASSIGNED] == Section(Unassigned, 0, 0, sections[UNASSIGNED].size)
      && page < |map_.Pages()| && Subpaged(map_.Pages()[page], page, pageSize, sections, subpages, owner, id)
      && forall p: nat :: p < |map_.Pages()| && p != page ==>
           PageOk(map_.Pages()[p], p, pageSize, sections, subpages, owner)
    }

    /** subpage_init, and the page is given to the new subpage. */
    method NewSubpage(page: nat) returns (ok: bool, id: nat)
      requires Valid() && page < Step(map_.levels) && map_.Pages()[page].ptr == UNASSIGNED
      modifies this`sections, this`subpages, map_
      ensures ok ==> ValidBut(page, id) && owner == old(owner)
      ensures ok ==> |sections| == old(|sections|) + 1
      ensures ok ==> |map_.nodes| <= old(|map_.nodes|) + 2 * map_.levels - 1
      ensures old(|sections|) + 1 <= pageSize && old(|map_.nodes|) + 2 * map_.levels - 1 <= NIL ==> ok
    {
      ghost var pages := map_.Pages();
      assert PageOk(pages[page], page, pageSize, sections, subpages, owner);
      id := |subpages|;
      subpages := subpages + [Subpage(page * pageSize, seq(pageSize, _ => 0))];
      var _ := SubpageRegister(id, 0, pageSize - 1, UNASSIGNED);
      var n;
      ok, n := SectionAdd(Section(SubpageRegion(id), page * pageSize, 0, pageSize));
      if !ok {
        return;
      }
      ok := map_.Set(page, 1, n);
      if ok {
        forall p: nat | p < |map_.Pages()| && p != page
          ensures PageOk(map_.Pages()[p], p, pageSize, sections, subpages, owner)
        {
          assert PageOk(pages[p], p, pageSize, old(sections), old(subpages), owner);
          PageKept(pages[p], p, pageSize, old(sections), old(subpages), owner, sections, subpages, owner);
        }
      }
    }

    /** The first half of register_subpage: the subpage of a page in which byte a has no owner. The
        assertion on what is found there holds. */
    method SubpageAt(page: nat, ghost a: nat) returns (ok: bool, id: nat)
      requires Valid() && page < Step(map_.levels) && InPage(a, page, pageSize) && owner(a) == None
      modifies this`sections, this`subpages, map_
      ensures ok ==> ValidBut(page, id) && owner == old(owner)
      ensures ok ==> old(|sections|) <= |sections| <= old(|sections|) + 1
      ensures ok ==> |map_.nodes| <= old(|map_.nodes|) + 2 * map_.levels - 1
      ensures old(|sections|) + 1 <= pageSize && old(|map_.nodes|) + 2 * map_.levels - 1 <= NIL ==> ok
    {
      var ptr := map_.Find(page);
      assert PageOk(map_.Pages()[page], page, pageSize, sections, subpages, owner);
      var existing := sections[ptr];
      assert existing.mr.SubpageRegion? || existing.mr == Unassigned;
      if existing.mr.SubpageRegion? {
        return true, existing.mr.id;
      }
      ok, id := NewSubpage(page);
    }

    /** register_subpage, for a section that lies in one page and takes bytes no section owns. */
    method RegisterSubpage(now: Section) returns (ok: bool)
      requires Valid() && !now.mr.SubpageRegion?
      requires 0 < now.size && now.start + now.size <= limit && now.start % pageSize + now.size <= pageSize
      requires forall a: nat :: Covers(now, a) ==> owner(a) == None
      modifies this, map_
      ensures ok ==> Valid() && owner == Claim(old(owner), now)
      ensures ok ==> |sections| <= old(|sections|) + 2
      ensures ok ==> |map_.nodes| <= old(|map_.nodes|) + 2 * map_.levels - 1
      ensures old(|sections|) + 2 <= pageSize && old(|map_.nodes|) + 2 * map_.levels - 1 <= NIL ==> ok
    {
      var page := now.start / pageSize;
      PageBelow(now.start, Step(map_.levels), pageSize);
      PageOf(now.start, pageSize);
      assert Covers(now, now.start);
      var id;
      ok, id := SubpageAt(page, now.start);
      if !ok {
        return;
      }
      ghost var pages, sections0, subpages0 := map_.Pages(), sections, subpages;
      var start := now.start % pageSize;
      var end := start + now.size - 1;
      var k;
      ok, k := SectionAdd(now);
      if !ok {
        return;
      }
      var _ := SubpageRegister(id, start, end, k);
      owner := Claim(owner, now);
      forall p: nat | p < |pages|
        ensures PageOk(pages[p], p, pageSize, sections, subpages, owner)
      {
        if p == page {
          SubpageTaken(pages[p], p, pageSize, sections0, subpages0, old(owner), id, now, sections, subpages);
        } else {
          assert PageOk(pages[p], p, pageSize, sections0, subpages0, old(owner));
          OtherPage(now, page, p, pageSize);
          PageKept(pages[p], p, pageSize, sections0, subpages0, old(owner), sections, subpages, owner);
        }
      }
    }

    /** register_multipage, for whole pages that no section owns a byte of */
    method RegisterMultipage(now: Section) returns (ok: bool)
      requires Valid() && !now.mr.SubpageRegion?
      requires now.start % pageSize == 0 && now.size % pageSize == 0 && 0 < now.size && now.start + now.size <= limit
      requires forall a: nat :: Covers(now, a) ==> owner(a) == None
      modifies this, map_
      ensures ok ==> Valid() && owner == Claim(old(owner), now)
      ensures ok ==> |sections| == old(|sections|) + 1
      ensures ok ==> |map_.nodes| <= old(|map_.nodes|) + 2 * map_.levels - 1
      ensures old(|sections|) + 1 <= pageSize && old(|map_.nodes|) + 2 * map_.levels - 1 <= NIL ==> ok
    {
      var k;
      ghost var pages := map_.Pages();
      ok, k := SectionAdd(now);
      if !ok {
        return;
      }
      var page, count := now.start / pageSize, now.size / pageSize;
      PageOf(now.start, pageSize);
      PageOf(now.size, pageSize);
      assert count > 0;
      assert page + count <= Step(map_.levels) by {
        if page + count > Step(map_.levels) {
          MulMonotone(Step(map_.levels) + 1, page + count, pageSize);
        }
      }
      forall p: nat | page <= p < page + count
        ensures pages[p].ptr == UNASSIGNED && pages[p].level == 0
      {
        assert PageOk(pages[p], p, pageSize, old(sections), subpages, owner);
        assert InPage(p * pageSize, p, pageSize);
        forall a: nat | InPage(a, p, pageSize)
          ensures owner(a) == None
        {
          WholePages(a, p, page, count, pageSize);
          assert Covers(now, a);
        }
      }
      ok := map_.Set(page, count, k);
      if !ok {
        return;
      }
      owner := Claim(owner, now);
      forall p: nat | p < |map_.Pages()|
        ensures PageOk(map_.Pages()[p], p, pageSize, sections, subpages, owner)
      {
        assert PageOk(pages[p], p, pageSize, old(sections), subpages, old(owner));
        forall a: nat | InPage(a, p, pageSize)
          ensures Covers(now, a) <==> page <= p < page + count
        {
          WholePages(a, p, page, count, pageSize);
        }
        if !(page <= p < page + count) {
          PageKept(pages[p], p, pageSize, old(sections), subpages, old(owner), sections, subpages, owner);
        }
      }
    }

    /** One turn of mem_add's loop: register the next piece of what remains, whole pages first. */
    method RegisterPiece(remain: Section) returns (ok: bool, now: Section)
      requires Valid() && !remain.mr.SubpageRegion?
      requires 0 < remain.size && remain.start + remain.size <= limit && remain.start % pageSize == 0
      requires forall a: nat :: Covers(remain, a) ==> owner(a) == None
      modifies this, map_
      ensures now == remain.(size := now.size) && 0 < now.size <= remain.size
      ensures remain.size < pageSize ==> now.size == remain.size
      ensures remain.size - now.size < pageSize && (now.size == remain.size || (now.start + now.size) % pageSize == 0)
      ensures ok ==> Valid() && owner == Claim(old(owner), now)
      ensures ok ==> |sections| <= old(|sections|) + (if remain.size < pageSize then 2 else 1)
      ensures ok ==> |map_.nodes| <= old(|map_.nodes|) + 2 * map_.levels - 1
      ensures !ok ==> old(|sections|) + (if remain.size < pageSize then 2 else 1) > pageSize
                      || old(|map_.nodes|) + 2 * map_.levels - 1 > NIL
    {
      now := remain;
      if remain.size < pageSize {
        ok := RegisterSubpage(now);
      } else if remain.start % pageSize != 0 {
        assert false;  // after the first piece the cursor is page-aligned
      } else {
        now := now.(size := now.size - now.size % pageSize);
        WholePart(remain.start, remain.size, pageSize);
        ok := RegisterMultipage(now);
      }
    }

    /** The start of mem_add: register the part of the section before its first page boundary. */
    method RegisterHead(section: Section) returns (ok: bool, now: Section, ghost calls: nat)
      requires Valid() && !section.mr.SubpageRegion?
      requires 0 < section.size && section.start + section.size <= limit
      requires forall a: nat :: Covers(section, a) ==> owner(a) == None
      modifies this, map_
      ensures now == section.(size := now.size) && now.size <= section.size && calls <= 1
      ensures now.size == section.size || (now.start + now.size) % pageSize == 0
      ensures ok ==> Valid() && Given(owner, old(owner), section, section.start + now.size)
      ensures ok ==> |sections| <= old(|sections|) + 2 * calls
      ensures ok ==> |map_.nodes| <= old(|map_.nodes|) + (if calls == 0 then 0 else 2 * map_.levels - 1)
      ensures !ok ==> old(|sections|) + 2 > pageSize || old(|map_.nodes|) + 2 * map_.levels - 1 > NIL
    {
      now := section;
      if now.start % pageSize != 0 {
        var left := pageSize - now.start % pageSize;
        RoundUp(section.start, pageSize);
        now := now.(size := if left < now.size then left else now.size);
        ok := RegisterSubpage(now);
        calls := 1;
      } else {
        now := now.(size := 0);
        ok, calls := true, 0;
      }
    }

    /** mem_add: every byte of the section is given to it, and no other byte changes hands. */
    method MemAdd(section: Section) returns (ok: bool)
      requires Valid() && !section.mr.SubpageRegion?
      requires 0 < section.size && section.start + section.size <= limit
      requires forall a: nat :: Covers(section, a) ==> owner(a) == None
      modifies this, map_
      ensures ok ==> Valid()
      ensures ok ==> forall a: nat :: owner(a) == if Covers(section, a) then Some(TargetOf(section)) else old(owner)(a)
      ensures ok ==> |sections| <= old(|sections|) + 5
      ensures ok ==> |map_.nodes| <= old(|map_.nodes|) + 3 * (2 * map_.levels - 1)
      ensures old(|sections|) + 5 <= pageSize && old(|map_.nodes|) + 3 * (2 * map_.levels - 1) <= NIL ==> ok
    {
      var now, remain := section, section;
      ghost var calls;
      ok, now, calls := RegisterHead(section);
      if !ok {
        return;
      }
      while remain.size != now.size
        invariant Valid()
        invariant now == remain.(size := now.size) && remain.mr == section.mr && now.size <= remain.size
        invariant section.start <= remain.start && remain.start + remain.size == section.start + section.size
        invariant remain.offset - remain.start == section.offset - section.start
        invariant remain.size == now.size || (remain.start + now.size) % pageSize == 0
        invariant Given(owner, old(owner), section, remain.start + now.size)
        invariant 0 <= calls <= (if remain.size - now.size >= pageSize then 1 else if remain.size != now.size then 2
                  else 3)
        invariant |sections| - old(|sections|) <=
                  (if remain.size - now.size >= pageSize then 2 else if remain.size != now.size then 3 else 5)
        invariant calls == 0 ==> |map_.nodes| <= old(|map_.nodes|)
        invariant calls == 1 ==> |map_.nodes| <= old(|map_.nodes|) + (2 * map_.levels - 1)
        invariant calls == 2 ==> |map_.nodes| <= old(|map_.nodes|) + 2 * (2 * map_.levels - 1)
        invariant calls == 3 ==> |map_.nodes| <= old(|map_.nodes|) + 3 * (2 * map_.levels - 1)
        decreases remain.size - now.size
      {
        remain := remain.(size := remain.size - now.size,
                          start := remain.start + now.size,
                          offset := remain.offset + now.size);
        ghost var owner1 := owner;
        ok, now := RegisterPiece(remain);
        if !ok {
          return;
        }
        GivenMore(owner1, old(owner), section, now);
        calls := calls + 1;
      }
    }
  }

  lemma RoundUp(a: nat, size: nat)
    requires size > 0 && a % size != 0
    ensures (a + (size - a % size)) % size == 0
  {
    PageOf(a, size);
    var b := a + (size - a % size);
    assert b == (a / size + 1) * size;
    PageUnique(b, a / size + 1, size);
  }

  lemma WholePart(a: nat, n: nat, size: nat)
    requires size > 0 && a % size == 0 && n >= size
    ensures n - n % size >= size && (n - n % size) % size == 0
    ensures (a + (n - n % size)) % size == 0
  {
    PageOf(a, size);
    PageOf(n, size);
    var m := n / size * size;
    PageUnique(m, n / size, size);
    if n / size < 1 { MulMonotone(n / size, 0, size); }
    MulMonotone(1, n / size, size);
    assert a + m == (a / size + n / size) * size;
    PageUnique(a + m, a / size + n / size, size);
  }

  // ---- Whole runs --------------------------------------------------------------------------------

  ghost predicate Disjoint(list: seq<Section>) {
    forall i, j, a: nat :: 0 <= i < j < |list| && Covers(list[i], a) ==> !Covers(list[j], a)
  }

  /** mem_begin and mem_add of any list of disjoint, non-empty sections, in any order: every address
      leads to the region of the section that covers it, at the matching offset, and an uncovered one
      to the unassigned region. The table overflows only if the list is too long for it. */
  method Build(levels: nat, pageSize: nat, list: seq<Section>) returns (ok: bool, d: AddressSpaceDispatch)
    requires levels > 0 && pageSize > 0 && Disjoint(list)
    requires forall i :: 0 <= i < |list| ==> 0 < list[i].size && !list[i].mr.SubpageRegion?
    requires forall i :: 0 <= i < |list| ==> list[i].start + list[i].size <= Step(levels) * pageSize
    ensures fresh(d)
    ensures !ok ==> 4 + 5 * |list| > pageSize || 3 * |list| * (2 * levels - 1) > NIL
    ensures ok ==> d.Valid() && d.limit == Step(levels) * pageSize
    ensures ok ==> forall i, a: nat :: 0 <= i < |list| && Covers(list[i], a) && a < d.limit ==>
              TargetOf(d.Resolve(a)) == TargetOf(list[i])
    ensures ok ==> forall a: nat :: a < d.limit && (forall i :: 0 <= i < |list| ==> !Covers(list[i], a)) ==>
              TargetOf(d.Resolve(a)) == Target(Unassigned, 0)
  {
    d := new AddressSpaceDispatch(levels, pageSize);
    ok := true;
    ghost var each, used := 3 * (2 * levels - 1), 0;
    for n := 0 to |list|
      invariant fresh(d) && fresh(d.map_) && d.Valid()
      invariant d.limit == Step(levels) * pageSize && d.pageSize == pageSize && d.map_.levels == levels
      invariant forall i, a: nat :: 0 <= i < n && Covers(list[i], a) ==> d.owner(a) == Some(TargetOf(list[i]))
      invariant forall a: nat :: (forall i :: 0 <= i < n ==> !Covers(list[i], a)) ==> d.owner(a) == None
      invariant |d.sections| <= 4 + 5 * n
      invariant |d.map_.nodes| <= used == n * each
    {
      ok := d.MemAdd(list[n]);
      OneMore(n, |list|, each);
      used := used + each;
      if !ok {
        assert |list| * each == 3 * |list| * (2 * levels - 1);
        return;
      }
    }
    forall a: nat | a < d.limit
      ensures TargetOf(d.Resolve(a)) == if d.owner(a).Some? then d.owner(a).value else Target(Unassigned, 0)
    {
      d.ResolvesToOwner(a);
    }
  }

  /** From a list of sections to the region and the offset in it that an address leads to */
  method Lookup(levels: nat, pageSize: nat, list: seq<Section>, addr: nat) returns (ok: bool, mr: Region, xlat: int)
    requires levels > 0 && pageSize > 0 && Disjoint(list) && addr < Step(levels) * pageSize
    requires forall i :: 0 <= i < |list| ==> 0 < list[i].size && !list[i].mr.SubpageRegion?
    requires forall i :: 0 <= i < |list| ==> list[i].start + list[i].size <= Step(levels) * pageSize
    ensures !ok ==> 4 + 5 * |list| > pageSize || 3 * |list| * (2 * levels - 1) > NIL
    ensures ok ==> forall i :: 0 <= i < |list| && Covers(list[i], addr) ==>
              mr == list[i].mr && xlat == list[i].offset + (addr - list[i].start)
    ensures ok && (forall i :: 0 <= i < |list| ==> !Covers(list[i], addr)) ==> mr == Unassigned && xlat == addr
  {
    var d;
    ok, d := Build(levels, pageSize, list);
    if !ok {
      return false, Unassigned, 0;
    }
    mr, xlat := d.Translate(addr);
  }
}
