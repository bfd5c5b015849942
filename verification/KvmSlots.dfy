/** The memory slots of kvm-all.c: how `kvm_set_phys_mem` carves a guest range out of the slot array
    and what that does to the guest-to-host address map. */
module KvmSlots {
  import opened Arith
  import opened Options

  /** KVMSlot; a slot of size 0 is free. `ram` is the host address of the first byte. */
  datatype Slot = Slot(start: nat, size: nat, ram: int)

  predicate Holds(s: Slot, a: nat) { s.start <= a < s.start + s.size }

  predicate Overlaps(s: Slot, start: nat, end: nat) {
    s.size != 0 && end > s.start && start < s.start + s.size
  }

  /** The slot maps all of a range as asked. */
  predicate Backs(s: Slot, start: nat, size: nat, ram: int) {
    s.start <= start && start + size <= s.start + s.size && ram - start == s.ram - s.start
  }

  ghost predicate Backed(slots: seq<Slot>, start: nat, size: nat, ram: int) {
    exists i :: 0 <= i < |slots| && Backs(slots[i], start, size, ram)
  }

  /** No guest address lies in two slots. */
  ghost predicate Apart(slots: seq<Slot>) {
    forall i, j :: 0 <= i < j < |slots| && slots[i].size != 0 && slots[j].size != 0 ==>
      slots[i].start + slots[i].size <= slots[j].start || slots[j].start + slots[j].size <= slots[i].start
  }

  /** The host address that the slots give guest address a. */
  ghost function HostOf(slots: seq<Slot>, a: nat): Option<int> {
    if exists i :: 0 <= i < |slots| && Holds(slots[i], a) then
      var i :| 0 <= i < |slots| && Holds(slots[i], a);
      Some(slots[i].ram + (a - slots[i].start))
    else None
  }

  /** With slots apart, any slot that holds a says where it is. */
  lemma HostAt(slots: seq<Slot>, a: nat, i: nat)
    requires Apart(slots) && i < |slots| && Holds(slots[i], a)
    ensures HostOf(slots, a) == Some(slots[i].ram + (a - slots[i].start))
  {
  }

  /** Freeing slot i takes exactly its addresses out of the map. */
  lemma Unregistered(slots: seq<Slot>, i: nat, a: nat)
    requires Apart(slots) && i < |slots|
    ensures var slots' := slots[i := slots[i].(size := 0)];
            Apart(slots') && HostOf(slots', a) == if Holds(slots[i], a) then None else HostOf(slots, a)
  {
    var slots' := slots[i := slots[i].(size := 0)];
    if HostOf(slots, a).Some? && !Holds(slots[i], a) {
      var j :| 0 <= j < |slots| && Holds(slots[j], a);
      HostAt(slots, a, j);
      HostAt(slots', a, j);
    }
  }

  /** Filling free slot i with a range that meets no other slot adds exactly that range to the map. */
  lemma Registered(slots: seq<Slot>, i: nat, s: Slot, a: nat)
    requires Apart(slots) && i < |slots| && slots[i].size == 0
    requires forall j :: 0 <= j < |slots| ==> !Overlaps(slots[j], s.start, s.start + s.size)
    ensures Apart(slots[i := s])
    ensures HostOf(slots[i := s], a) == if Holds(s, a) then Some(s.ram + (a - s.start)) else HostOf(slots, a)
  {
    var slots' := slots[i := s];
    if Holds(s, a) {
      HostAt(slots', a, i);
    } else if HostOf(slots, a).Some? {
      var j :| 0 <= j < |slots| && Holds(slots[j], a);
      HostAt(slots, a, j);
      HostAt(slots', a, j);
    }
  }

  /** A range of unmapped addresses meets no slot. */
  lemma UnmappedMeetsNone(slots: seq<Slot>, s: Slot)
    requires s.size != 0 && forall a: nat :: Holds(s, a) ==> HostOf(slots, a) == None
    ensures forall j :: 0 <= j < |slots| ==> !Overlaps(slots[j], s.start, s.start + s.size)
  {
    forall j | 0 <= j < |slots| && Overlaps(slots[j], s.start, s.start + s.size)
      ensures false
    {
      var a := if slots[j].start < s.start then s.start else slots[j].start;
      assert Holds(s, a) && Holds(slots[j], a);
    }
  }

  /** The map of the slots with range s added, and with it removed. */
  ghost function With(slots: seq<Slot>, s: Slot, a: nat): Option<int> {
    if Holds(s, a) then Some(s.ram + (a - s.start)) else HostOf(slots, a)
  }

  ghost function Without(slots: seq<Slot>, s: Slot, a: nat): Option<int> {
    if Holds(s, a) then None else HostOf(slots, a)
  }

  // ---- Counting slots ----------------------------------------------------------------------------

  ghost function Count(slots: seq<Slot>, p: Slot -> bool): nat {
    if slots == [] then 0
    else Count(slots[..|slots| - 1], p) + if p(slots[|slots| - 1]) then 1 else 0
  }

  lemma {:induction false} CountUpdate(slots: seq<Slot>, p: Slot -> bool, i: nat, s: Slot)
    requires i < |slots|
    ensures Count(slots[i := s], p) + (if p(slots[i]) then 1 else 0) == Count(slots, p) + (if p(s) then 1 else 0)
  {
    var n := |slots| - 1;
    if i == n {
      assert slots[i := s][..n] == slots[..n];
    } else {
      assert slots[i := s][..n] == slots[..n][i := s];
      CountUpdate(slots[..n], p, i, s);
    }
  }

  lemma {:induction false} CountNone(slots: seq<Slot>, p: Slot -> bool)
    requires forall i :: 0 <= i < |slots| ==> !p(slots[i])
    ensures Count(slots, p) == 0
  {
    if slots != [] { CountNone(slots[..|slots| - 1], p); }
  }

  lemma {:induction false} CountAll(slots: seq<Slot>, p: Slot -> bool)
    requires forall i :: 0 <= i < |slots| ==> p(slots[i])
    ensures Count(slots, p) == |slots|
  {
    if slots != [] { CountAll(slots[..|slots| - 1], p); }
  }

  ghost function FreeSlots(slots: seq<Slot>): nat { Count(slots, (s: Slot) => s.size == 0) }

  ghost function Overlapping(slots: seq<Slot>, start: nat, end: nat): nat {
    Count(slots, (s: Slot) => Overlaps(s, start, end))
  }

  // ---- What a section asks for ---------------------------------------------------------------------

  /** The parts of MemoryRegion that matter here; `ram` is the host address of its first byte. */
  datatype Region = Region(isRam: bool, readonly: bool, romDevice: bool, romdMode: bool, ram: int)

  datatype Section = Section(mr: Region, start: nat, offset: nat, size: nat)

  /** TARGET_PAGE_ALIGN(size) - size */
  function Delta(size: nat, page: nat): nat
    requires page > 0
  {
    (page - size % page) % page
  }

  datatype Intent = Ignore | Map(start: nat, size: nat, ram: int) | Unmap(start: nat, size: nat)

  /** The range of whole pages that a section stands for, and whether to map or to unmap it. */
  function IntentOf(section: Section, add: bool, page: nat, readonlyAllowed: bool): Intent
    requires page > 0
  {
    var mr, delta := section.mr, Delta(section.size, page);
    if delta > section.size then Ignore
    else
      var start, size := section.start + delta, AlignDown(section.size - delta, page);
      if size == 0 || start % page != 0 then Ignore
      else if !mr.isRam && ((!mr.readonly && !mr.romDevice) || !readonlyAllowed) then Ignore
      else if add && (mr.isRam || mr.romdMode) then Map(start, size, mr.ram + section.offset + delta)
      else Unmap(start, size)
  }

  /** The least number that makes the size a multiple of the page size */
  lemma DeltaIsLeast(size: nat, page: nat, d: nat)
    requires page > 0
    ensures (size + Delta(size, page)) % page == 0
    ensures (size + d) % page == 0 ==> Delta(size, page) <= d
  {
    if size % page == 0 {
      DeltaOfAligned(size, page);
    } else {
      DeltaOfUnaligned(size, page, size / page, size % page, d);
    }
  }

  lemma DeltaOfUnaligned(size: nat, page: nat, q: nat, r: nat, d: nat)
    requires page > 0 && size == q * page + r && 0 < r < page && size % page == r
    ensures Delta(size, page) == page - r && (size + (page - r)) % page == 0
    ensures d < page - r ==> (size + d) % page != 0
  {
    DivIs(page - r, 0, page - r, page);
    assert (q + 1) * page == q * page + page;
    DivIs(size + (page - r), q + 1, 0, page);
    if d < page - r { DivIs(size + d, q, r + d, page); }
  }

  lemma DeltaOfAligned(size: nat, page: nat)
    requires page > 0 && size % page == 0
    ensures Delta(size, page) == 0
  {
    assert page % page == 0;
  }

  /** The page at address s lies in the section. */
  predicate PageOf(section: Section, page: nat, s: nat)
    requires page > 0
  {
    s % page == 0 && section.start <= s && s + page <= section.start + section.size
  }

  /** The kinds of memory that KVM gets slots for: RAM, and ROM where the kernel has read-only slots */
  predicate Slottable(mr: Region, readonlyAllowed: bool) {
    mr.isRam || ((mr.readonly || mr.romDevice) && readonlyAllowed)
  }

  /** The code works on a section only if its start and its size leave the same rest in a page. */
  predicate Fits(section: Section, page: nat)
    requires page > 0
  {
    section.start % page == section.size % page
  }

  lemma ModShift(x: nat, y: nat, page: nat)
    requires page > 0 && x % page == 0
    ensures (x + y) % page == y % page
  {
    assert x == x / page * page;
    assert (x / page + y / page) * page == x + y / page * page;
    DivIs(x + y, x / page + y / page, y % page, page);
  }

  lemma PaddedRest(start: nat, q: nat, a: nat, b: nat, d: nat, page: nat)
    requires a < page && b < page && start == q * page + a && d == if b == 0 then 0 else page - b
    ensures (start + d) % page == 0 <==> a == b
  {
    if b == 0 {
      DivIs(start, q, a, page);
    } else if a < b {
      DivIs(start + d, q, a + d, page);
    } else {
      assert (q + 1) * page == q * page + page;
      DivIs(start + d, q + 1, a - b, page);
    }
  }

  lemma Quotient(x: nat, page: nat) returns (q: nat)
    requires page > 0
    ensures x == q * page + x % page
  {
    q := x / page;
  }

  lemma DeltaIs(b: nat, page: nat)
    requires b < page
    ensures (page - b) % page == if b == 0 then 0 else page - b
  {
    if b == 0 { DivIs(page, 1, 0, page); } else { DivIs(page - b, 0, page - b, page); }
  }

  /** Moving the start by the padding makes it a page boundary exactly if the section fits. */
  lemma StartMoves(section: Section, page: nat)
    requires page > 0
    ensures (section.start + Delta(section.size, page)) % page == 0 <==> Fits(section, page)
  {
    DeltaIs(section.size % page, page);
    var q := Quotient(section.start, page);
    PaddedRest(section.start, q, section.start % page, section.size % page, Delta(section.size, page), page);
  }

  /** Counted from the moved start, the pages of the section are those of the range. */
  lemma PagesOfRange(section: Section, page: nat, s: nat)
    requires page > 0 && Fits(section, page)
    ensures var d := Delta(section.size, page);
            PageOf(section, page, s) <==>
              d <= section.size && s % page == 0 && section.start + d <= s
              && s + page <= section.start + d + AlignDown(section.size - d, page)
  {
    var d := Delta(section.size, page);
    StartMoves(section, page);
    if PageOf(section, page, s) { NoPageBefore(section, page, s, d); }
    if s % page == 0 && section.start + d <= s {
      var k, n := s - (section.start + d), section.size - d;
      assert k % page == 0 by { ModDifference(s, section.start + d, page); }
      if k + page <= n { WholePages(n, k, page); }
    }
  }

  lemma ModDifference(x: nat, y: nat, page: nat)
    requires page > 0 && x % page == 0 && y % page == 0 && y <= x
    ensures (x - y) % page == 0
  {
    ModShift(y, x - y, page);
  }

  lemma WholePages(n: nat, k: nat, page: nat)
    requires page > 0 && k % page == 0 && k + page <= n
    ensures k + page <= AlignDown(n, page)
  {
    var q := k / page + 1;
    assert k == k / page * page && q * page == k + page;
    if n / page < q { MulMonotone(n / page + 1, q, page); }
    MulMonotone(q, n / page, page);
  }

  /** No page boundary lies between the start of a section and the moved start. */
  lemma NoPageBefore(section: Section, page: nat, s: nat, d: nat)
    requires page > 0 && d == Delta(section.size, page) && (section.start + d) % page == 0
    requires s % page == 0 && section.start <= s
    ensures section.start + d <= s
  {
    if s < section.start + d {
      ModDifference(section.start + d, s, page);
      DivIs(section.start + d - s, 0, section.start + d - s, page);
    }
  }

  /** What the code makes of a section, for every section: it is ignored exactly if it is of a kind without slots, if it
      has no whole page, or if it does not fit. Otherwise it is mapped if it is added and is RAM or a ROM device in ROMD
      mode, and unmapped if not. The range is that of all whole pages of the section, with the section's own
      guest-to-host distance. */
  lemma IntentIs(section: Section, add: bool, page: nat, readonlyAllowed: bool)
    requires page > 0
    ensures var intent, mr := IntentOf(section, add, page, readonlyAllowed), section.mr;
            && (intent.Ignore? <==> !Slottable(mr, readonlyAllowed) || !Fits(section, page)
                                    || forall s: nat :: !PageOf(section, page, s))
            && (!intent.Ignore? ==>
               && (intent.Map? <==> add && (mr.isRam || mr.romdMode))
               && intent.start % page == 0 && intent.size % page == 0 && 0 < intent.size
               && forall s: nat :: PageOf(section, page, s) <==>
                    s % page == 0 && intent.start <= s && s + page <= intent.start + intent.size)
            && (intent.Map? ==> intent.ram - intent.start == mr.ram + section.offset - section.start)
  {
    StartMoves(section, page);
    if Fits(section, page) {
      forall s: nat
        ensures var d := Delta(section.size, page);
                PageOf(section, page, s) <==>
                  d <= section.size && s % page == 0 && section.start + d <= s
                  && s + page <= section.start + d + AlignDown(section.size - d, page)
      {
        PagesOfRange(section, page, s);
      }
      var d := Delta(section.size, page);
      if d <= section.size && AlignDown(section.size - d, page) != 0 {
        AtLeastOne(section.size - d, page);
        assert PageOf(section, page, section.start + d);
      }
    }
  }

  lemma AtLeastOne(n: nat, page: nat)
    requires page > 0 && AlignDown(n, page) != 0
    ensures AlignDown(n, page) >= page && AlignDown(n, page) % page == 0
  {
    MulMonotone(1, n / page, page);
    DivIs(AlignDown(n, page), n / page, 0, page);
  }

  /** A section of whole pages is handled as it is. */
  lemma AlignedIntent(section: Section, add: bool, page: nat, readonlyAllowed: bool)
    requires page > 0 && section.start % page == 0 && section.size % page == 0 && section.size > 0
    ensures IntentOf(section, add, page, readonlyAllowed)
            == if !Slottable(section.mr, readonlyAllowed) then Ignore
               else if add && (section.mr.isRam || section.mr.romdMode)
               then Map(section.start, section.size, section.mr.ram + section.offset)
               else Unmap(section.start, section.size)
  {
    DeltaOfAligned(section.size, page);
  }

  /** A section of RAM that starts on a page boundary and is one and a half pages long is ignored, although it has a
      whole page. */
  lemma WholePageIgnored(mr: Region, offset: nat, half: nat)
    requires mr.isRam && half > 0
    ensures var section := Section(mr, 0, offset, 3 * half);
            PageOf(section, 2 * half, 0) && IntentOf(section, true, 2 * half, false) == Ignore
  {
    var section := Section(mr, 0, offset, 3 * half);
    DivIs(3 * half, 1, half, 2 * half);
    DivIs(0, 0, 0, 2 * half);
    IntentIs(section, true, 2 * half, false);
  }

  /** The address map that the intent asks for. */
  ghost function Wanted(intent: Intent, slots: seq<Slot>, a: nat): Option<int> {
    match intent
    case Ignore => HostOf(slots, a)
    case Map(start, size, ram) => With(slots, Slot(start, size, ram), a)
    case Unmap(start, size) => Without(slots, Slot(start, size, 0), a)
  }

  // ---- The slot array ------------------------------------------------------------------------------

  class KvmState {
    const slots: array<Slot>

    constructor (count: nat)
      ensures fresh(slots) && slots.Length == count
      ensures forall i :: 0 <= i < count ==> slots[i].size == 0
    {
      slots := new Slot[count](_ => Slot(0, 0, 0));
    }

    /** kvm_alloc_slot: the first free slot; the source aborts when there is none */
    method AllocSlot() returns (ok: bool, i: nat)
      ensures ok ==> i < slots.Length && slots[i].size == 0
      ensures ok <==> FreeSlots(slots[..]) > 0
    {
      i := 0;
      while i < slots.Length
        invariant i <= slots.Length && forall j :: 0 <= j < i ==> slots[j].size != 0
      {
        if slots[i].size == 0 {
          if FreeSlots(slots[..]) == 0 {
            CountUpdate(slots[..], (s: Slot) => s.size == 0, i, Slot(0, 1, 0));
          }
          return true, i;
        }
        i := i + 1;
      }
      CountNone(slots[..], (s: Slot) => s.size == 0);
      ok := false;
    }

    /** kvm_lookup_overlapping_slot: the overlapping slot with the lowest start address */
    method LookupOverlapping(start: nat, end: nat) returns (found: Option<nat>)
      ensures found == None <==> forall j :: 0 <= j < slots.Length ==> !Overlaps(slots[j], start, end)
      ensures found.Some? ==> found.value < slots.Length && Overlaps(slots[found.value], start, end)
      ensures found.Some? ==> forall j :: 0 <= j < slots.Length && Overlaps(slots[j], start, end) ==>
                slots[found.value].start <= slots[j].start
    {
      found := None;
      for i := 0 to slots.Length
        invariant found == None <==> forall j :: 0 <= j < i ==> !Overlaps(slots[j], start, end)
        invariant found.Some? ==> found.value < i && Overlaps(slots[found.value], start, end)
        invariant found.Some? ==> forall j :: 0 <= j < i && Overlaps(slots[j], start, end) ==>
                    slots[found.value].start <= slots[j].start
      {
        var mem := slots[i];
        if mem.size == 0 || (found.Some? && slots[found.value].start < mem.start) {
          continue;
        }
        if end > mem.start && start < mem.start + mem.size {
          found := Some(i);
        }
      }
    }

    /** Put a range of unmapped addresses into a free slot. */
    method Register(s: Slot) returns (ok: bool)
      requires Apart(slots[..]) && s.size != 0
      requires forall a: nat :: Holds(s, a) ==> HostOf(slots[..], a) == None
      modifies slots
      ensures ok <==> old(FreeSlots(slots[..])) > 0
      ensures ok ==> Apart(slots[..]) && FreeSlots(slots[..]) == old(FreeSlots(slots[..])) - 1
      ensures ok ==> forall a: nat :: HostOf(slots[..], a) == With(old(slots[..]), s, a)
      ensures ok ==> forall start, end :: !Overlaps(s, start, end) ==>
                Overlapping(slots[..], start, end) == old(Overlapping(slots[..], start, end))
    {
      var i;
      ok, i := AllocSlot();
      if !ok {
        return;
      }
      ghost var was := slots[..];
      UnmappedMeetsNone(was, s);
      forall a: nat
        ensures Apart(was[i := s]) && HostOf(was[i := s], a) == With(was, s, a)
      {
        Registered(was, i, s, a);
      }
      Registered(was, i, s, 0);
      CountUpdate(was, (t: Slot) => t.size == 0, i, s);
      forall start: nat, end: nat | !Overlaps(s, start, end)
        ensures Overlapping(was[i := s], start, end) == Overlapping(was, start, end)
      {
        CountUpdate(was, (t: Slot) => Overlaps(t, start, end), i, s);
      }
      slots[i] := s;
      assert slots[..] == was[i := s];
    }

    /** Free slot i. */
    method Unregister(i: nat)
      requires Apart(slots[..]) && i < slots.Length && slots[i].size != 0
      modifies slots
      ensures Apart(slots[..]) && FreeSlots(slots[..]) == old(FreeSlots(slots[..])) + 1
      ensures forall a: nat :: HostOf(slots[..], a) == Without(old(slots[..]), old(slots[i]), a)
      ensures forall a: nat :: old(Holds(slots[i], a)) ==>
                old(HostOf(slots[..], a)) == Some(old(slots[i].ram) + (a - old(slots[i].start)))
      ensures forall start, end :: old(Overlaps(slots[i], start, end)) ==>
                Overlapping(slots[..], start, end) == old(Overlapping(slots[..], start, end)) - 1
    {
      ghost var was, gone := slots[..], slots[i].(size := 0);
      forall a: nat
        ensures Apart(was[i := gone]) && HostOf(was[i := gone], a) == Without(was, was[i], a)
        ensures Holds(was[i], a) ==> HostOf(was, a) == Some(was[i].ram + (a - was[i].start))
      {
        Unregistered(was, i, a);
        if Holds(was[i], a) { HostAt(was, a, i); }
      }
      Unregistered(was, i, 0);
      CountUpdate(was, (t: Slot) => t.size == 0, i, gone);
      forall start: nat, end: nat | Overlaps(was[i], start, end)
        ensures Overlapping(was[i := gone], start, end) == Overlapping(was, start, end) - 1
      {
        CountUpdate(was, (t: Slot) => Overlaps(t, start, end), i, gone);
      }
      slots[i] := slots[i].(size := 0);
      assert slots[..] == was[i := gone];
    }

    /** Free slot i, which meets [start, end), and put back what it held outside that range. */
    method Carve(i: nat, start: nat, end: nat) returns (ok: bool, ghost prefix: bool, ghost suffix: bool)
      requires Apart(slots[..]) && i < slots.Length && Overlaps(slots[i], start, end) && start < end
      modifies slots
      ensures prefix == old(slots[i].start < start) && suffix == old(slots[i].start + slots[i].size > end)
      ensures !ok ==> prefix && suffix && old(FreeSlots(slots[..])) == 0
      ensures ok ==> Apart(slots[..])
      ensures ok ==> FreeSlots(slots[..]) + (if prefix then 1 else 0) + (if suffix then 1 else 0)
                     == old(FreeSlots(slots[..])) + 1
      ensures ok ==> Overlapping(slots[..], start, end) == old(Overlapping(slots[..], start, end)) - 1
      ensures ok ==> forall a: nat :: HostOf(slots[..], a)
                       == if start <= a < end && old(Holds(slots[i], a)) then None else old(HostOf(slots[..], a))
    {
      var old_ := slots[i];
      prefix, suffix := old_.start < start, old_.start + old_.size > end;
      Unregister(i);
      ok := true;
      if old_.start < start {
        ok := Register(Slot(old_.start, start - old_.start, old_.ram));
      }
      if old_.start + old_.size > end {
        var delta := end - old_.start;
        ok := Register(Slot(end, old_.size - delta, old_.ram + delta));
      }
    }

    /** kvm_set_phys_mem: the old address map with exactly the section's page range overwritten, or
        erased. Two free slots are always enough, and nothing is done if a slot maps the range already. */
    method SetPhysMem(section: Section, add0: bool, page: nat, readonlyAllowed: bool) returns (ok: bool)
      requires page > 0 && Apart(slots[..])
      modifies slots
      ensures ok ==> Apart(slots[..])
      ensures ok ==> forall a: nat ::
                HostOf(slots[..], a) == Wanted(IntentOf(section, add0, page, readonlyAllowed), old(slots[..]), a)
      ensures old(FreeSlots(slots[..])) >= 2 ==> ok && FreeSlots(slots[..]) >= old(FreeSlots(slots[..])) - 2
      ensures var intent := IntentOf(section, add0, page, readonlyAllowed);
              intent.Map? && Backed(old(slots[..]), intent.start, intent.size, intent.ram) ==>
                ok && slots[..] == old(slots[..])
    {
      var mr, add := section.mr, add0;
      var start, size := section.start, section.size;
      var writeable := !mr.readonly && !mr.romDevice;
      var delta := Delta(size, page);
      if delta > size {
        return true;
      }
      start := start + delta;
      size := size - delta;
      size := AlignDown(size, page);
      if size == 0 || start % page != 0 {
        return true;
      }
      if !mr.isRam {
        if writeable || !readonlyAllowed {
          return true;
        } else if !mr.romdMode {
          add := false;
        }
      }
      ghost var intent := IntentOf(section, add0, page, readonlyAllowed);
      assert intent == if add then Map(start, size, mr.ram + section.offset + delta) else Unmap(start, size);
      ok := ReplaceRange(start, size, mr.ram + section.offset + delta, add);
    }

    /** The rest of kvm_set_phys_mem, on a page range. */
    method ReplaceRange(start: nat, size: nat, ram: int, add: bool) returns (ok: bool)
      requires Apart(slots[..]) && size > 0
      modifies slots
      ensures ok ==> Apart(slots[..])
      ensures ok ==> forall a: nat :: HostOf(slots[..], a)
                       == Wanted(if add then Map(start, size, ram) else Unmap(start, size), old(slots[..]), a)
      ensures old(FreeSlots(slots[..])) >= 2 ==> ok && FreeSlots(slots[..]) >= old(FreeSlots(slots[..])) - 2
      ensures add && Backed(old(slots[..]), start, size, ram) ==> ok && slots[..] == old(slots[..])
    {
      var present;
      ok, present := ClearRange(start, size, ram, add);
      if !ok || present || !add {
        return;
      }
      ok := Register(Slot(start, size, ram));
    }

    /** The loop of kvm_set_phys_mem: carve the range out of every slot that meets it, unless one of
        them already maps all of it as asked. */
    method ClearRange(start: nat, size: nat, ram: int, add: bool) returns (ok: bool, present: bool)
      requires Apart(slots[..]) && size > 0
      modifies slots
      ensures ok ==> Apart(slots[..])
      ensures ok && present ==> add && slots[..] == old(slots[..])
      ensures add && Backed(old(slots[..]), start, size, ram) ==> ok && present
      ensures ok && present ==> forall a: nat :: start <= a < start + size ==>
                HostOf(slots[..], a) == Some(ram + (a - start))
      ensures ok && !present ==> FreeSlots(slots[..]) >= old(FreeSlots(slots[..])) - 1
      ensures ok && !present ==> forall a: nat ::
                HostOf(slots[..], a) == Without(old(slots[..]), Slot(start, size, 0), a)
      ensures old(FreeSlots(slots[..])) >= 1 ==> ok
    {
      ghost var was, done := slots[..], Progress(None, false, false);
      ok, present := true, false;
      while true
        invariant ok && !present && Apart(slots[..]) && Cleared(was, slots[..], start, size, done)
        invariant add && Backed(was, start, size, ram) ==> slots[..] == was
        decreases Overlapping(slots[..], start, start + size)
      {
        var mem := LookupOverlapping(start, start + size);
        if Backed(slots[..], start, size, ram) { BackedByOne(slots[..], start, size, ram); }
        if mem == None {
          NoneMapped(slots[..], start, size);
          return;
        }
        var i := mem.value;
        var old_ := slots[i];
        if add && start >= old_.start && start + size <= old_.start + old_.size
           && ram - start == old_.ram - old_.start
        {
          AlreadyMapped(slots[..], i, start, size, ram);
          return true, true;
        }
        ok, done := ClearOne(i, start, size, was, done);
        if !ok {
          return;
        }
      }
    }

    /** One turn of that loop. */
    method ClearOne(i: nat, start: nat, size: nat, ghost was: seq<Slot>, ghost done: Progress)
      returns (ok: bool, ghost done': Progress)
      requires Apart(slots[..]) && Cleared(was, slots[..], start, size, done)
      requires i < slots.Length && Overlaps(slots[i], start, start + size)
      modifies slots
      ensures FreeSlots(was) >= 1 ==> ok
      ensures ok ==> Apart(slots[..]) && Cleared(was, slots[..], start, size, done') && done'.gone.Some?
      ensures ok ==> Overlapping(slots[..], start, start + size) < old(Overlapping(slots[..], start, start + size))
    {
      ghost var now, p, q := slots[..], false, false;
      EndsMapped(now, i, start, size);
      ok, p, q := Carve(i, start, start + size);
      done' := Progress(Some(if now[i].start < start then start else now[i].start), done.prefix || p, done.suffix || q);
    }
  }

  /** What the loop has done so far: an address it has taken out of the map, and whether it has put
      back a prefix or a suffix. */
  datatype Progress = Progress(gone: Option<nat>, prefix: bool, suffix: bool)

  ghost predicate Cleared(was: seq<Slot>, now: seq<Slot>, start: nat, size: nat, done: Progress) {
    && size > 0
    && (forall a: nat :: !(start <= a < start + size) ==> HostOf(now, a) == HostOf(was, a))
    && (done.gone == None ==> now == was && !done.prefix && !done.suffix)
    && (done.gone.Some? ==> start <= done.gone.value < start + size && HostOf(now, done.gone.value) == None)
    && (done.prefix ==> HostOf(now, start) == None)
    && (done.suffix ==> HostOf(now, start + size - 1) == None)
    && FreeSlots(now) + (if done.prefix then 1 else 0) + (if done.suffix then 1 else 0)
       >= FreeSlots(was) + (if done.gone.Some? then 1 else 0)
  }

  lemma NoneMapped(slots: seq<Slot>, start: nat, size: nat)
    requires forall j :: 0 <= j < |slots| ==> !Overlaps(slots[j], start, start + size)
    ensures forall a: nat :: start <= a < start + size ==> HostOf(slots, a) == None
  {
    forall a: nat | start <= a < start + size
      ensures HostOf(slots, a) == None
    {
      forall j | 0 <= j < |slots|
        ensures !Holds(slots[j], a)
      {
        assert !Overlaps(slots[j], start, start + size);
      }
    }
  }

  lemma EndsMapped(slots: seq<Slot>, i: nat, start: nat, size: nat)
    requires Apart(slots) && size > 0 && i < |slots| && Overlaps(slots[i], start, start + size)
    ensures slots[i].start < start ==> HostOf(slots, start).Some?
    ensures slots[i].start + slots[i].size > start + size ==> HostOf(slots, start + size - 1).Some?
    ensures Holds(slots[i], if slots[i].start < start then start else slots[i].start)
  {
    if slots[i].start < start { HostAt(slots, start, i); }
    if slots[i].start + slots[i].size > start + size { HostAt(slots, start + size - 1, i); }
  }

  /** A slot that maps all of a range is the only one that meets it. */
  lemma BackedByOne(slots: seq<Slot>, start: nat, size: nat, ram: int)
    requires Apart(slots) && size > 0 && Backed(slots, start, size, ram)
    ensures exists j :: 0 <= j < |slots| && Overlaps(slots[j], start, start + size)
    ensures forall i :: 0 <= i < |slots| && Overlaps(slots[i], start, start + size) ==>
            Backs(slots[i], start, size, ram)
  {
    var j :| 0 <= j < |slots| && Backs(slots[j], start, size, ram);
    assert Overlaps(slots[j], start, start + size);
    forall i | 0 <= i < |slots| && Overlaps(slots[i], start, start + size)
      ensures i == j
    {
    }
  }

  lemma AlreadyMapped(slots: seq<Slot>, i: nat, start: nat, size: nat, ram: int)
    requires Apart(slots) && i < |slots| && slots[i].start <= start && start + size <= slots[i].start + slots[i].size
    requires ram - start == slots[i].ram - slots[i].start
    ensures forall a: nat :: start <= a < start + size ==> HostOf(slots, a) == Some(ram + (a - start))
  {
    forall a: nat | start <= a < start + size
      ensures HostOf(slots, a) == Some(ram + (a - start))
    {
      HostAt(slots, a, i);
    }
  }

  // ---- Whole runs --------------------------------------------------------------------------------

  datatype Op = Op(section: Section, add: bool)

  /** Where the first n calls have put guest address a: the last one whose range holds a decides. */
  ghost function HostAfter(ops: seq<Op>, n: nat, page: nat, readonlyAllowed: bool, a: nat): Option<int>
    requires page > 0 && n <= |ops|
  {
    if n == 0 then None
    else
      var op, before := ops[n - 1], HostAfter(ops, n - 1, page, readonlyAllowed, a);
      match IntentOf(op.section, op.add, page, readonlyAllowed)
      case Ignore => before
      case Map(start, size, ram) => if start <= a < start + size then Some(ram + (a - start)) else before
      case Unmap(start, size) => if start <= a < start + size then None else before
  }

  /** The slots hold the address map that the first n calls wrote. */
  ghost predicate MapIs(slots: seq<Slot>, ops: seq<Op>, n: nat, page: nat, readonlyAllowed: bool)
    requires page > 0 && n <= |ops|
  {
    forall a: nat :: HostOf(slots, a) == HostAfter(ops, n, page, readonlyAllowed, a)
  }

  lemma MapStarts(slots: seq<Slot>, ops: seq<Op>, page: nat, readonlyAllowed: bool)
    requires page > 0 && forall i :: 0 <= i < |slots| ==> slots[i].size == 0
    ensures MapIs(slots, ops, 0, page, readonlyAllowed) && FreeSlots(slots) == |slots|
  {
    CountAll(slots, (s: Slot) => s.size == 0);
  }

  lemma MapGoesOn(slots: seq<Slot>, slots': seq<Slot>, ops: seq<Op>, n: nat, page: nat, readonlyAllowed: bool)
    requires page > 0 && n < |ops| && MapIs(slots, ops, n, page, readonlyAllowed)
    requires forall a: nat ::
               HostOf(slots', a) == Wanted(IntentOf(ops[n].section, ops[n].add, page, readonlyAllowed), slots, a)
    ensures MapIs(slots', ops, n + 1, page, readonlyAllowed)
  {
  }

  /** Any run of calls on an empty slot array: slots stay apart, and the address map is the one that
      the calls wrote, range over range. */
  method Run(count: nat, ops: seq<Op>, page: nat, readonlyAllowed: bool) returns (ok: bool, kvm: KvmState)
    requires page > 0
    ensures 2 * |ops| <= count ==> ok
    ensures ok ==> Apart(kvm.slots[..])
    ensures ok ==> MapIs(kvm.slots[..], ops, |ops|, page, readonlyAllowed)
  {
    kvm := new KvmState(count);
    MapStarts(kvm.slots[..], ops, page, readonlyAllowed);
    ok := true;
    for n := 0 to |ops|
      invariant ok && fresh(kvm) && fresh(kvm.slots) && Apart(kvm.slots[..])
      invariant FreeSlots(kvm.slots[..]) >= count - 2 * n || 2 * n > count
      invariant MapIs(kvm.slots[..], ops, n, page, readonlyAllowed)
    {
      ghost var slots := kvm.slots[..];
      ok := kvm.SetPhysMem(ops[n].section, ops[n].add, page, readonlyAllowed);
      if !ok {
        return;
      }
      MapGoesOn(slots, kvm.slots[..], ops, n, page, readonlyAllowed);
    }
  }
}
