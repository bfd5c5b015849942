/** Allocation along a backing chain in block.c: `bdrv_is_allocated` for one image and `bdrv_is_allocated_above` for all
    images above a base, which may differ in length. */
module BackingChain {
  import opened Arith

  /** What an image says of a sector: its own data, zeroes of its own, or nothing */
  datatype Status = Data(content: int) | Zero | Hole

  /** An image: its sectors, whether a new one reads as zeroes, for how many sectors its driver answers at a time, and
      where its driver fails, with which error */
  datatype Layer = Layer(sectors: seq<Status>, zeroInit: bool, run: nat -> nat, errors: map<nat, int>)

  /** A chain, from the top; the backing file of each image is the next one. */
  type Chain = seq<Layer>

  ghost predicate ChainOk(chain: Chain) {
    forall i :: 0 <= i < |chain| ==> LayerOk(chain[i])
  }

  ghost predicate LayerOk(l: Layer) {
    (forall s: nat :: l.run(s) >= 1) && (forall s :: s in l.errors ==> l.errors[s] < 0)
  }

  /** Of the same kind */
  predicate Same(a: Status, b: Status) { a.Data? == b.Data? && a.Zero? == b.Zero? }

  /** bdrv_has_zero_init */
  predicate HasZeroInit(chain: Chain, i: nat)
    requires i < |chain|
  {
    i + 1 == |chain| && chain[i].zeroInit
  }

  /** Image i has nothing to say of the sector; past its end counts as that, and so do zeroes of the last image, if a
      new one reads as zeroes anyway. */
  predicate Absent(chain: Chain, i: nat, s: nat)
    requires i < |chain|
  {
    s < |chain[i].sectors| ==>
      chain[i].sectors[s].Hole? || (chain[i].sectors[s].Zero? && i == |chain| - 1 && chain[i].zeroInit)
  }

  /** Image i itself says what the sector holds, or its backing file ends before it. */
  predicate Provided(chain: Chain, i: nat, s: nat)
    requires i < |chain|
  {
    s < |chain[i].sectors| && (!Absent(chain, i, s) || (i + 1 < |chain| && s >= |chain[i + 1].sectors|))
  }

  /** n sectors from `sector` on are provided by image i, or absent from it. */
  ghost predicate AllProvided(chain: Chain, i: nat, sector: nat, n: nat)
    requires i < |chain|
  {
    forall s: nat :: sector <= s < sector + n ==> Provided(chain, i, s)
  }

  ghost predicate AllAbsent(chain: Chain, i: nat, sector: nat, n: nat)
    requires i < |chain|
  {
    forall s: nat :: sector <= s < sector + n ==> Absent(chain, i, s)
  }

  /** Of nb sectors from `sector` on, the first n are of one kind, and no more of them, as far as the driver looks. */
  ghost predicate Extent(l: Layer, sector: nat, nb: nat, n: nat)
    requires sector + nb <= |l.sectors|
  {
    && n <= Min(nb, l.run(sector))
    && (forall s :: sector <= s < sector + n ==> Same(l.sectors[s], l.sectors[sector]))
    && (n < Min(nb, l.run(sector)) ==> !Same(l.sectors[sector + n], l.sectors[sector]))
  }

  /** For an image that may end before */
  ghost predicate ImageExtent(l: Layer, sector: nat, nb: nat, n: nat) {
    if sector >= |l.sectors| then n == 0 else Extent(l, sector, Min(nb, |l.sectors| - sector), n)
  }

  /** The driver's answer: the sectors of one kind, not more than nb and not beyond the end */
  method DriverStatus(l: Layer, sector: nat, nb: nat) returns (error: int, status: Status, pnum: nat)
    requires LayerOk(l) && sector + nb <= |l.sectors|
    ensures error <= 0 && (error < 0 <==> sector in l.errors) && (error < 0 ==> error == l.errors[sector])
            && pnum <= nb && (nb > 0 && error == 0 ==> pnum > 0)
    ensures error == 0 ==> Extent(l, sector, nb, pnum)
    ensures error == 0 ==> forall s :: sector <= s < sector + pnum ==> Same(l.sectors[s], status)
    ensures error == 0 && nb > 0 ==> Same(l.sectors[sector], status)
  {
    status, pnum := Hole, 0;
    if sector in l.errors {
      return l.errors[sector], Hole, 0;
    }
    error := 0;
    if nb > 0 {
      status := l.sectors[sector];
      var most := Min(nb, l.run(sector));
      while pnum < most && Same(l.sectors[sector + pnum], status)
        invariant pnum <= most && (most > 0 && pnum == 0 ==> status == l.sectors[sector])
                  && forall s :: sector <= s < sector + pnum ==> Same(l.sectors[s], status)
        invariant pnum == 0 ==> Same(l.sectors[sector], status)
      {
        pnum := pnum + 1;
      }
    }
  }

  /** The driver of image i fails for the sector. */
  predicate Fails(chain: Chain, i: nat, s: nat)
    requires i < |chain|
  {
    s in chain[i].errors && s < |chain[i].sectors|
  }

  /** bdrv_co_get_block_status and bdrv_is_allocated */
  method IsAllocated(chain: Chain, i: nat, sector: nat, nb: nat) returns (ret: int, pnum: nat)
    requires ChainOk(chain) && i < |chain|
    ensures ret <= 1 && pnum <= nb && (ret < 0 <==> Fails(chain, i, sector))
    ensures ret < 0 ==> ret == chain[i].errors[sector]
    ensures ret >= 0 ==> ImageExtent(chain[i], sector, nb, pnum)
    ensures ret == 1 ==> sector < |chain[i].sectors| && AllProvided(chain, i, sector, pnum)
    ensures ret == 0 ==> AllAbsent(chain, i, sector, pnum)
    ensures ret == 0 ==>
            (sector >= |chain[i].sectors| ==> pnum == 0)
            && (sector < |chain[i].sectors| ==> sector + pnum <= |chain[i].sectors|)
    ensures ret >= 0 && nb > 0 && sector < |chain[i].sectors| ==> pnum > 0
    ensures ret >= 0 && nb > 0 ==> (ret == 1 <==> Provided(chain, i, sector))
  {
    var l := chain[i];
    assert LayerOk(l);
    if sector >= |l.sectors| {
      return 0, 0;
    }
    var error, status;
    error, status, pnum := DriverStatus(l, sector, Min(nb, |l.sectors| - sector));
    if error < 0 {
      return error, 0;
    }
    var data, zero := status.Data?, status.Zero?;
    if !data {
      if HasZeroInit(chain, i) {
        zero := true;
      } else if i + 1 < |chain| && sector >= |chain[i + 1].sectors| {
        zero := true;
      }
    }
    ret := if data || (zero && !HasZeroInit(chain, i)) then 1 else 0;
  }

  /** bdrv_is_allocated_above; the base is chain[base], or there is none if base is |chain|. The end of an image below
      the top does not cut the answer short. An error or an answer of 1 is that of the first image
      that fails or provides the sector. After an answer of 0 the first sector reads as the base has it; a later
      one does so too, unless an image above the base ends before it, and then reads as zero. */
  method IsAllocatedAbove(chain: Chain, base: nat, sector: nat, nb: nat) returns (ret: int, pnum: nat, ghost cut: nat)
    requires ChainOk(chain) && base <= |chain|
    ensures ret <= 1 && pnum <= nb
    ensures ret < 0 ==> cut < base && Fails(chain, cut, sector) && ret == chain[cut].errors[sector]
    ensures ret == 1 ==>
              cut < base && AllProvided(chain, cut, sector, pnum) && ImageExtent(chain[cut], sector, nb, pnum)
    ensures forall i :: 0 <= i < (if ret == 0 then base else cut) ==>
              !Fails(chain, i, sector) && (nb > 0 ==> !Provided(chain, i, sector))
    ensures ret == 0 ==> forall i :: 0 <= i < base ==> AllAbsent(chain, i, sector, pnum)
    ensures ret == 0 && pnum < nb ==>
              cut < base && ImageExtent(chain[cut], sector, nb, pnum)
                && (cut == 0 || sector + pnum < |chain[cut].sectors|)
    ensures ret >= 0 && nb > 0 && (base > 0 ==> sector < |chain[0].sectors|) ==> pnum > 0
    ensures ret >= 0 && nb > 0 ==> (ret == 1 <==> exists i :: 0 <= i < base && Provided(chain, i, sector))
    ensures ret == 0 ==> forall s: nat :: sector <= s < sector + pnum ==> ReadsThrough(chain, base, s)
    ensures ret == 0 && nb > 0 && (base > 0 ==> sector < |chain[0].sectors|) ==>
            Read(chain, 0, sector) == Read(chain, base, sector)
  {
    var n: nat := nb;
    cut := 0;
    for i := 0 to base
      invariant n < nb ==>
                cut < i && ImageExtent(chain[cut], sector, nb, n)
                && (cut == 0 || sector + n < |chain[cut].sectors|)
      invariant n <= nb && (nb > 0 && (base > 0 ==> sector < |chain[0].sectors|) ==> n > 0)
      invariant forall j :: 0 <= j < i ==> AllAbsent(chain, j, sector, n)
      invariant forall j :: 0 <= j < i ==> !Fails(chain, j, sector) && (nb > 0 ==> !Provided(chain, j, sector))
    {
      var r, p := IsAllocated(chain, i, sector, nb);
      if r < 0 {
        return r, 0, i;
      } else if r == 1 {
        return 1, p, i;
      }
      ghost var before := n;
      if n > p && (i == 0 || sector + p < |chain[i].sectors|) {
        n, cut := p, i;
      }
      forall s: nat | sector <= s < sector + n
        ensures Absent(chain, i, s)
      {
        assert s < sector + p ==> Absent(chain, i, s);
      }
      forall j | 0 <= j < i
        ensures AllAbsent(chain, j, sector, n)
      {
        assert AllAbsent(chain, j, sector, before);
      }
    }
    AllAbsentReads(chain, base, sector, n);
    if nb > 0 && (base > 0 ==> sector < |chain[0].sectors|) { UnprovidedReads(chain, 0, base, sector); }
    return 0, n, cut;
  }

  // ---- What an answer means for the guest ------------------------------------------------------------------

  /** What the guest reads; beyond the end of an image there are zeroes. */
  function Read(chain: Chain, i: nat, s: nat): int
    requires i <= |chain|
    decreases |chain| - i
  {
    if i == |chain| || s >= |chain[i].sectors| then 0
    else
      match chain[i].sectors[s]
      case Data(content) => content
      case Zero => 0
      case Hole => Read(chain, i + 1, s)
  }

  /** An image from `top` on and above the base ends before the sector. */
  predicate EndsBefore(chain: Chain, top: nat, base: nat, s: nat)
    requires top <= base <= |chain|
    decreases base - top
  {
    top < base && (s >= |chain[top].sectors| || EndsBefore(chain, top + 1, base, s))
  }

  /** The guest reads the sector as the base has it, unless an image above the base ends before it, and then as zero. */
  ghost predicate ReadsThrough(chain: Chain, base: nat, s: nat)
    requires base <= |chain|
  {
    && (!EndsBefore(chain, 0, base, s) ==> Read(chain, 0, s) == Read(chain, base, s))
    && (EndsBefore(chain, 0, base, s) ==> Read(chain, 0, s) == 0)
  }

  /** A sector that is absent above the base reads as the base has it, unless an image between them ends before it: then
      it reads as zero. */
  lemma {:induction false} AbsentReads(chain: Chain, top: nat, base: nat, s: nat)
    requires top <= base <= |chain| && forall i :: top <= i < base ==> Absent(chain, i, s)
    ensures Read(chain, top, s) == if EndsBefore(chain, top, base, s) then 0 else Read(chain, base, s)
    decreases base - top
  {
    if top < base {
      if s < |chain[top].sectors| {
        assert Absent(chain, top, s);
        AbsentReads(chain, top + 1, base, s);
      }
    }
  }

  /** If no image above the base provides the sector, it reads as the base has it: an image that ends before it would
      have made the one above provide it. */
  lemma {:induction false} UnprovidedReads(chain: Chain, top: nat, base: nat, s: nat)
    requires top <= base <= |chain| && (top < base ==> s < |chain[top].sectors|)
    requires forall i :: top <= i < base ==> !Provided(chain, i, s)
    ensures Read(chain, top, s) == Read(chain, base, s) && !EndsBefore(chain, top, base, s)
    decreases base - top
  {
    if top < base {
      assert !Provided(chain, top, s);
      UnprovidedReads(chain, top + 1, base, s);
    }
  }

  lemma AllAbsentReads(chain: Chain, base: nat, sector: nat, n: nat)
    requires base <= |chain| && forall i :: 0 <= i < base ==> AllAbsent(chain, i, sector, n)
    ensures forall s: nat :: sector <= s < sector + n ==> ReadsThrough(chain, base, s)
  {
    forall s: nat | sector <= s < sector + n
      ensures ReadsThrough(chain, base, s)
    {
      forall i | 0 <= i < base
        ensures Absent(chain, i, s)
      {
        assert AllAbsent(chain, i, sector, n);
      }
      AbsentReads(chain, 0, base, s);
    }
  }

  function Image(sectors: seq<Status>): Layer { Layer(sectors, false, _ => 2, map[]) }

  function ShortChain(content: int): Chain {
    [Image([Hole, Hole]), Image([Hole]), Image([Data(content), Data(content)])]
  }

  lemma ShortChainReads(content: int)
    ensures var chain := ShortChain(content);
            ChainOk(chain) && Read(chain, 0, 1) == 0 && Read(chain, 2, 1) == content
            && !Provided(chain, 0, 0) && !Provided(chain, 1, 0)
  {
    var chain := ShortChain(content);
    assert chain[0].sectors == [Hole, Hole] && chain[1].sectors == [Hole] && chain[2].sectors[1] == Data(content);
    assert Read(chain, 1, 1) == 0;
  }

  /** Such an image: the middle of three has one sector. Two sectors are reported as not allocated above the base, but
      the guest does not read the second one as the base has it. */
  method ShortMiddle(content: int) returns (ret: int, pnum: nat)
    requires content != 0
    ensures ret == 0 && pnum == 2
    ensures Read(ShortChain(content), 0, 1) != Read(ShortChain(content), 2, 1)
  {
    var chain := ShortChain(content);
    ShortChainReads(content);
    ghost var cut;
    ret, pnum, cut := IsAllocatedAbove(chain, 2, 0, 2);
    assert chain[0] == Image([Hole, Hole]) && chain[1] == Image([Hole]);
  }
}
