/** The lists that memory_mapping.c builds for a dump: blocks of guest-physical memory, and mappings. */
module MemoryMapping {

  /** GuestPhysBlock: guest-physical addresses [start, end) at host address `host` */
  datatype PhysBlock = PhysBlock(start: nat, end: nat, host: nat)

  predicate InOrder(a: PhysBlock, b: PhysBlock) { a.end <= b.start }

  /** Blocks ascend and do not overlap. */
  ghost predicate BlocksOk(blocks: seq<PhysBlock>) {
    && (forall i :: 0 <= i < |blocks| ==> blocks[i].start <= blocks[i].end)
    && forall i, j {:trigger InOrder(blocks[i], blocks[j])} | 0 <= i < j < |blocks| :: InOrder(blocks[i], blocks[j])
  }

  /** Memory goes on from a to b, both for the guest and on the host. */
  predicate Continues(a: PhysBlock, b: PhysBlock) { a.end == b.start && a.host + (a.end - a.start) == b.host }

  ghost predicate Broken(blocks: seq<PhysBlock>, i: nat)
    requires 1 <= i < |blocks|
  {
    !Continues(blocks[i - 1], blocks[i])
  }

  /** No two neighbours could be one block. */
  ghost predicate Joined(blocks: seq<PhysBlock>)
  {
    forall i {:trigger Broken(blocks, i)} | 1 <= i < |blocks| :: Broken(blocks, i)
  }

  /** Guest address p is at host address h. */
  predicate At(b: PhysBlock, p: nat, h: nat) { b.start <= p < b.end && h == b.host + (p - b.start) }

  ghost predicate Covered(blocks: seq<PhysBlock>, p: nat, h: nat) {
    exists i :: 0 <= i < |blocks| && At(blocks[i], p, h)
  }

  /** A MemoryRegionSection, as far as it matters here */
  datatype Section = Section(ram: bool, start: nat, size: nat, host: nat) {
    function Block(): PhysBlock { PhysBlock(start, start + size, host) }
  }

  class GuestPhysBlockList {
    var blocks: seq<PhysBlock>

    constructor ()
      ensures blocks == []
    {
      blocks := [];
    }

    /** guest_phys_blocks_region_add, for sections that come in ascending order */
    method RegionAdd(section: Section)
      requires BlocksOk(blocks) && Joined(blocks)
      requires section.ram && blocks != [] ==> blocks[|blocks| - 1].end <= section.start
      modifies this
      ensures BlocksOk(blocks) && Joined(blocks)
      ensures section.ram ==> blocks != [] && blocks[|blocks| - 1].end == section.start + section.size
      ensures !section.ram ==> blocks == old(blocks)
      ensures forall p: nat, h: nat :: Covered(blocks, p, h) <==>
              old(Covered(blocks, p, h)) || (section.ram && At(section.Block(), p, h))
    {
      if !section.ram {
        return;
      }
      var added := section.Block();
      ghost var was := blocks;
      if blocks != [] && Continues(blocks[|blocks| - 1], added) {
        var l := |blocks| - 1;
        blocks := blocks[l := blocks[l].(end := added.end)];
        CoveredGrown(was, added);
        OrderGrown(was, added);
      } else {
        blocks := blocks + [added];
        CoveredPushed(was, added);
        OrderPushed(was, added);
      }
    }

    /** guest_phys_blocks_append: all RAM of a flat view, and nothing else */
    method Append(sections: seq<Section>)
      requires blocks == [] && forall i, j :: 0 <= i < j < |sections| ==>
               sections[i].start + sections[i].size <= sections[j].start
      modifies this
      ensures BlocksOk(blocks) && Joined(blocks)
      ensures forall p: nat, h: nat :: Covered(blocks, p, h) <==>
              exists i :: 0 <= i < |sections| && sections[i].ram && At(sections[i].Block(), p, h)
    {
      for n := 0 to |sections|
        invariant BlocksOk(blocks) && Joined(blocks)
        invariant blocks != [] ==>
                  exists i :: 0 <= i < n && blocks[|blocks| - 1].end == sections[i].start + sections[i].size
        invariant forall p: nat, h: nat :: Covered(blocks, p, h) <==>
                  exists i :: 0 <= i < n && sections[i].ram && At(sections[i].Block(), p, h)
      {
        RegionAdd(sections[n]);
      }
    }
  }

  lemma OrderPushed(blocks: seq<PhysBlock>, b: PhysBlock)
    requires BlocksOk(blocks) && Joined(blocks) && b.start <= b.end
    requires blocks != [] ==> blocks[|blocks| - 1].end <= b.start && !Continues(blocks[|blocks| - 1], b)
    ensures BlocksOk(blocks + [b]) && Joined(blocks + [b])
  {
    var more := blocks + [b];
    forall i, j | 0 <= i < j < |more|
      ensures InOrder(more[i], more[j])
    {
      if j < |blocks| { assert InOrder(blocks[i], blocks[j]); }
      if i < |blocks| - 1 { assert InOrder(blocks[i], blocks[|blocks| - 1]); }
    }
    forall i | 1 <= i < |more|
      ensures Broken(more, i)
    {
      if i < |blocks| { assert Broken(blocks, i); }
    }
  }

  lemma OrderGrown(blocks: seq<PhysBlock>, b: PhysBlock)
    requires BlocksOk(blocks) && Joined(blocks) && b.start <= b.end && blocks != []
             && Continues(blocks[|blocks| - 1], b)
    ensures var l := |blocks| - 1;
            var more := blocks[l := blocks[l].(end := b.end)]; BlocksOk(more) && Joined(more)
  {
    var l := |blocks| - 1;
    var more := blocks[l := blocks[l].(end := b.end)];
    assert Joined(more) by {
      forall i | 1 <= i < |more|
        ensures Broken(more, i)
      {
        assert Broken(blocks, i);
      }
    }
    forall i, j | 0 <= i < j < |more|
      ensures InOrder(more[i], more[j])
    {
      assert InOrder(blocks[i], blocks[j]);
    }
  }

  lemma CoveredPushed(blocks: seq<PhysBlock>, b: PhysBlock)
    ensures forall p: nat, h: nat :: Covered(blocks + [b], p, h) <==> Covered(blocks, p, h) || At(b, p, h)
  {
    forall p: nat, h: nat
      ensures Covered(blocks + [b], p, h) <==> Covered(blocks, p, h) || At(b, p, h)
    {
      if i :| 0 <= i < |blocks| && At(blocks[i], p, h) { assert (blocks + [b])[i] == blocks[i]; }
      if At(b, p, h) { assert (blocks + [b])[|blocks|] == b; }
    }
  }

  lemma CoveredGrown(blocks: seq<PhysBlock>, b: PhysBlock)
    requires blocks != [] && BlocksOk(blocks) && b.start <= b.end && Continues(blocks[|blocks| - 1], b)
    ensures var l := |blocks| - 1;
            forall p: nat, h: nat :: Covered(blocks[l := blocks[l].(end := b.end)], p, h) <==>
                Covered(blocks, p, h) || At(b, p, h)
  {
    var l := |blocks| - 1;
    var more := blocks[l := blocks[l].(end := b.end)];
    forall p: nat, h: nat
      ensures Covered(more, p, h) <==> Covered(blocks, p, h) || At(b, p, h)
    {
      if i :| 0 <= i < |blocks| && At(blocks[i], p, h) { assert At(more[i], p, h); }
      if At(b, p, h) { assert At(more[l], p, h); }
      if i :| 0 <= i < |more| && At(more[i], p, h) { assert At(blocks[i], p, h) || At(b, p, h); }
    }
  }

  // ---- Mappings ---------------------------------------------------------------------------------------

  datatype Mapping = Mapping(phys: nat, virt: nat, length: nat)

  predicate NotAfter(a: Mapping, b: Mapping) { a.phys <= b.phys }

  ghost predicate Sorted(maps: seq<Mapping>) {
    forall i, j {:trigger NotAfter(maps[i], maps[j])} | 0 <= i < j < |maps| :: NotAfter(maps[i], maps[j])
  }

  /** Physical address p is mapped, at virtual address v; a mapping without virtual addresses has 0 throughout. */
  predicate Maps(m: Mapping, p: nat, v: nat) {
    m.phys <= p < m.phys + m.length && v == if m.virt == 0 then 0 else m.virt + (p - m.phys)
  }

  ghost predicate Mapped(maps: seq<Mapping>, p: nat, v: nat) {
    exists i :: 0 <= i < |maps| && Maps(maps[i], p, v)
  }

  predicate Missed(m: Mapping, begin: nat, length: nat) { m.phys >= begin + length || m.phys + m.length <= begin }

  /** What memory_mapping_filter leaves of a mapping that is not missed. */
  function Clipped(m: Mapping, begin: nat, length: nat): Mapping
    requires !Missed(m, begin, length)
  {
    var c := if m.phys < begin
        then Mapping(begin, if m.virt != 0 then m.virt + (begin - m.phys) else m.virt, m.length - (begin - m.phys))
            else m;
    if c.phys + c.length > begin + length then c.(length := begin + length - c.phys) else c
  }

  class MemoryMappingList {
    var maps: seq<Mapping>

    constructor ()
      ensures maps == []
    {
      maps := [];
    }

    /** create_new_memory_mapping, which inserts in front of the first mapping that does not start below */
    method Add(m: Mapping)
      requires Sorted(maps)
      modifies this
      ensures Sorted(maps) && exists i :: 0 <= i <= |old(maps)| && maps == old(maps)[..i] + [m] + old(maps)[i..]
    {
      ghost var was := maps;
      for i := 0 to |maps|
        invariant maps == was && forall j :: 0 <= j < i ==> maps[j].phys < m.phys
      {
        if maps[i].phys >= m.phys {
          InsertSorted(maps, i, m);
          maps := maps[..i] + [m] + maps[i..];
          return;
        }
      }
      InsertSorted(maps, |maps|, m);
      maps := maps + [m];
      assert maps == was[..|was|] + [m] + was[|was|..];
    }

    /** memory_mapping_filter: what was mapped in the filter's range stays mapped as it was, and nothing else. */
    method Filter(begin: nat, length: nat)
      requires Sorted(maps)
      modifies this
      ensures Sorted(maps) && forall p: nat, v: nat :: Mapped(maps, p, v) <==>
              old(Mapped(maps, p, v)) && begin <= p < begin + length
      ensures maps == FilterUpTo(old(maps), begin, length, |old(maps)|)
    {
      var kept: seq<Mapping> := [];
      for i := 0 to |maps|
        invariant kept == FilterUpTo(maps, begin, length, i)
      {
        var cur := maps[i];
        if cur.phys >= begin + length || cur.phys + cur.length <= begin {
          continue;
        }
        if cur.phys < begin {
          cur := cur.(length := cur.length - (begin - cur.phys),
                      virt := if cur.virt != 0 then cur.virt + (begin - cur.phys) else cur.virt,
                      phys := begin);
        }
        if cur.phys + cur.length > begin + length {
          cur := cur.(length := cur.length - (cur.phys + cur.length - begin - length));
        }
        kept := kept + [cur];
      }
      FilterSorted(maps, begin, length, |maps|);
      FilterMaps(maps, begin, length);
      maps := kept;
    }
  }

  lemma InsertSorted(maps: seq<Mapping>, i: nat, m: Mapping)
    requires Sorted(maps) && i <= |maps|
             && (forall j :: 0 <= j < i ==> maps[j].phys < m.phys) && (i < |maps| ==> m.phys <= maps[i].phys)
    ensures Sorted(maps[..i] + [m] + maps[i..])
  {
    var more := maps[..i] + [m] + maps[i..];
    forall a, b | 0 <= a < b < |more|
      ensures NotAfter(more[a], more[b])
    {
      var a', b' := if a < i then a else a - 1, if b < i then b else b - 1;
      if a != i && b != i { assert NotAfter(maps[a'], maps[b']); }
      if a == i && i < b - 1 { assert NotAfter(maps[i], maps[b - 1]); }
    }
  }

  /** The first n mappings, filtered */
  function FilterUpTo(maps: seq<Mapping>, begin: nat, length: nat, n: nat): seq<Mapping>
    requires n <= |maps|
  {
    if n == 0 then []
    else FilterUpTo(maps, begin, length, n - 1) + if Missed(maps[n - 1], begin, length) then []
      else [Clipped(maps[n - 1], begin, length)]
  }

  /** A filtered list is made of the clipped mappings that are not missed. */
  lemma {:induction false} FilterHas(maps: seq<Mapping>, begin: nat, length: nat, n: nat, c: Mapping)
    requires n <= |maps|
    ensures c in FilterUpTo(maps, begin, length, n)
            <==> exists i :: 0 <= i < n && !Missed(maps[i], begin, length) && c == Clipped(maps[i], begin, length)
  {
    if n > 0 { FilterHas(maps, begin, length, n - 1, c); }
  }

  lemma {:induction false} FilterSorted(maps: seq<Mapping>, begin: nat, length: nat, n: nat)
    requires n <= |maps| && Sorted(maps)
    ensures Sorted(FilterUpTo(maps, begin, length, n))
  {
    if n > 0 {
      var rest := FilterUpTo(maps, begin, length, n - 1);
      FilterSorted(maps, begin, length, n - 1);
      if !Missed(maps[n - 1], begin, length) {
        var last := Clipped(maps[n - 1], begin, length);
        var all := rest + [last];
        forall a, b | 0 <= a < b < |all|
          ensures NotAfter(all[a], all[b])
        {
          if b < |rest| {
            assert NotAfter(rest[a], rest[b]);
          } else {
            FilterHas(maps, begin, length, n - 1, rest[a]);
            var i :| 0 <= i < n - 1 && !Missed(maps[i], begin, length) && rest[a] == Clipped(maps[i], begin, length);
            assert NotAfter(maps[i], maps[n - 1]);
          }
        }
      }
    }
  }

  lemma ClippedMaps(m: Mapping, begin: nat, length: nat, p: nat, v: nat)
    ensures Maps(m, p, v) && begin <= p < begin + length <==>
            !Missed(m, begin, length) && Maps(Clipped(m, begin, length), p, v)
  {
  }

  lemma FilterMaps(maps: seq<Mapping>, begin: nat, length: nat)
    ensures var kept := FilterUpTo(maps, begin, length, |maps|);
            forall p: nat, v: nat :: Mapped(kept, p, v) <==> Mapped(maps, p, v) && begin <= p < begin + length
  {
    var kept := FilterUpTo(maps, begin, length, |maps|);
    forall p: nat, v: nat
      ensures Mapped(kept, p, v) <==> Mapped(maps, p, v) && begin <= p < begin + length
    {
      if i :| 0 <= i < |kept| && Maps(kept[i], p, v) {
        FilterHas(maps, begin, length, |maps|, kept[i]);
        var j :| 0 <= j < |maps| && !Missed(maps[j], begin, length) && kept[i] == Clipped(maps[j], begin, length);
        ClippedMaps(maps[j], begin, length, p, v);
      }
      if j :| 0 <= j < |maps| && Maps(maps[j], p, v) && begin <= p < begin + length {
        ClippedMaps(maps[j], begin, length, p, v);
        FilterHas(maps, begin, length, |maps|, Clipped(maps[j], begin, length));
      }
    }
  }

  /** The mapping that qemu_get_guest_simple_memory_mapping makes of a block */
  function MapOf(b: PhysBlock): Mapping
    requires b.start <= b.end
  {
    Mapping(b.start, 0, b.end - b.start)
  }

  lemma InsertHas(maps: seq<Mapping>, i: nat, m: Mapping, x: Mapping)
    requires i <= |maps|
    ensures x in maps[..i] + [m] + maps[i..] <==> x in maps || x == m
  {
    assert maps == maps[..i] + maps[i..];
  }

  /** qemu_get_guest_simple_memory_mapping */
  method SimpleMapping(list: MemoryMappingList, blocks: seq<PhysBlock>)
    requires BlocksOk(blocks) && list.maps == []
    modifies list
    ensures Sorted(list.maps) && |list.maps| == |blocks|
    ensures forall m :: m in list.maps <==> exists k :: 0 <= k < |blocks| && m == MapOf(blocks[k])
    ensures forall p: nat, v: nat :: Mapped(list.maps, p, v) <==>
            v == 0
            && exists k :: 0 <= k < |blocks| && blocks[k].start <= p < blocks[k].end
  {
    for n := 0 to |blocks|
      invariant Sorted(list.maps) && |list.maps| == n
      invariant forall m :: m in list.maps <==> exists k :: 0 <= k < n && m == MapOf(blocks[k])
    {
      ghost var was := list.maps;
      list.Add(Mapping(blocks[n].start, 0, blocks[n].end - blocks[n].start));
      ghost var i :| 0 <= i <= |was| && list.maps == was[..i] + [MapOf(blocks[n])] + was[i..];
      forall m
        ensures m in list.maps <==> m in was || m == MapOf(blocks[n])
      {
        InsertHas(was, i, MapOf(blocks[n]), m);
      }
    }
    forall p: nat, v: nat
      ensures Mapped(list.maps, p, v) <==>
              v == 0
              && exists k :: 0 <= k < |blocks| && blocks[k].start <= p < blocks[k].end
    {
      if i :| 0 <= i < |list.maps| && Maps(list.maps[i], p, v) { assert list.maps[i] in list.maps; }
      if v == 0 {
        if k :| 0 <= k < |blocks| && blocks[k].start <= p < blocks[k].end { assert MapOf(blocks[k]) in list.maps; }
      }
    }
  }
}
