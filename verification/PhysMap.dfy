/** The multi-level page table that exec.c keeps for one address space: filling it
    (`phys_page_set`), walking it (`phys_page_find`), and what both mean for a flat
    page-to-section map. */
module PhysMap {
  import opened Arith

  // ---- Shifts by multiples of P_L2_BITS --------------------------------------------

  /** p >> (l * P_L2_BITS) */
  function Shift(p: nat, l: nat): nat {
    if l == 0 then p else Shift(p, l - 1) / 1024
  }

  /** q << (l * P_L2_BITS) */
  function Unshift(q: nat, l: nat): nat
    decreases l
  {
    if l == 0 then q else Unshift(q * 1024, l - 1)
  }

  /** 1 << (l * P_L2_BITS): the number of pages that one entry of a level-l node covers */
  function Step(l: nat): nat { Unshift(1, l) }

  lemma {:induction false} Galois(p: nat, q: nat, l: nat)
    ensures Shift(p, l) >= q <==> p >= Unshift(q, l)
    decreases l
  {
    if l > 0 { Galois(p, q * 1024, l - 1); }
  }

  lemma {:induction false} UnshiftAdd(a: nat, b: nat, l: nat)
    ensures Unshift(a + b, l) == Unshift(a, l) + Unshift(b, l)
    decreases l
  {
    if l > 0 { UnshiftAdd(a * 1024, b * 1024, l - 1); }
  }

  lemma {:induction false} StepPositive(l: nat)
    ensures Step(l) >= 1
  {
    Galois(0, 1, l);
    Galois(0, 0, l);
    ShiftZero(l);
  }

  lemma {:induction false} ShiftZero(l: nat)
    ensures Shift(0, l) == 0
  {
    if l > 0 { ShiftZero(l - 1); }
  }

  /** The pages that share a shifted number form one aligned block. */
  lemma BlockOf(p: nat, q: nat, l: nat)
    ensures Shift(p, l) == q <==> Unshift(q, l) <= p < Unshift(q, l) + Step(l)
  {
    Galois(p, q, l);
    Galois(p, q + 1, l);
    UnshiftAdd(q, 1, l);
  }

  lemma {:induction false} UnshiftMul(q: nat, l: nat)
    ensures Unshift(q, l) == q * Step(l)
  {
    if q == 0 {
      UnshiftAdd(0, 0, l);
    } else {
      UnshiftMul(q - 1, l);
      UnshiftAdd(q - 1, 1, l);
    }
  }

  /** (p & (step - 1)) == 0 exactly when p is the first page of its block. */
  lemma AlignedIsBlockStart(p: nat, l: nat)
    ensures Step(l) > 0
    ensures p % Step(l) == 0 <==> Unshift(Shift(p, l), l) == p
  {
    StepPositive(l);
    BlockOf(p, Shift(p, l), l);
    UnshiftMul(Shift(p, l), l);
    DivUnique(p / Step(l), p % Step(l), Shift(p, l), p - Unshift(Shift(p, l), l), Step(l));
  }

  // ---- Entries, nodes and their place in the tree ------------------------------------

  /** PHYS_MAP_NODE_NIL and PHYS_SECTION_UNASSIGNED */
  const NIL: nat := 0x7fff
  const UNASSIGNED: nat := 0

  datatype Entry = Entry(skip: bool, ptr: nat)

  type Node = n: seq<Entry> | |n| == 1024 witness seq(1024, _ => Entry(true, NIL))

  /** Where a node sits: its level, and the shifted page number all its pages share. */
  datatype Label = Label(level: nat, prefix: nat)

  /** Page p is one of those that a node placed at `at` is responsible for. */
  predicate Under(at: Label, p: nat) { Shift(p, at.level + 1) == at.prefix }

  datatype Tree = Tree(nodes: seq<Node>, labels: seq<Label>)

  /** What a walk ends on: a section number, and the level of the leaf that holds it. */
  datatype Found = Found(ptr: nat, level: nat)

  /** Entry e may stand for the level-l block with shifted page number q. */
  ghost predicate EntryOk(e: Entry, l: nat, q: nat, labels: seq<Label>) {
    e.skip ==> l > 0 && (e.ptr == NIL || (e.ptr < |labels| && labels[e.ptr] == Label(l - 1, q)))
  }

  ghost predicate NodeOk(node: Node, at: Label, labels: seq<Label>) {
    forall k :: 0 <= k < 1024 ==> EntryOk(node[k], at.level, at.prefix * 1024 + k, labels)
  }

  ghost predicate WellFormed(t: Tree) {
    && |t.labels| == |t.nodes| <= NIL
    && forall n :: 0 <= n < |t.nodes| ==> NodeOk(t.nodes[n], t.labels[n], t.labels)
  }

  /** The walk of phys_page_find for page p, starting at entry e with l levels below it. */
  ghost function Look(t: Tree, e: Entry, l: nat, p: nat): Found
    requires WellFormed(t) && EntryOk(e, l, Shift(p, l), t.labels)
    decreases l
  {
    if !e.skip then Found(e.ptr, l)
    else if e.ptr == NIL then Found(UNASSIGNED, 0)
    else
      var k := Shift(p, l - 1) % 1024;
      assert NodeOk(t.nodes[e.ptr], t.labels[e.ptr], t.labels);
      Look(t, t.nodes[e.ptr][k], l - 1, p)
  }

  // ---- What an update leaves alone ----------------------------------------------------

  /** Between t0 and t1 the walks changed only for pages in [lo, hi), and those now end on leaf. */
  ghost predicate Kept(t0: Tree, t1: Tree, lo: nat, hi: nat, leaf: nat) {
    && WellFormed(t0) && WellFormed(t1) && t0.labels <= t1.labels
    && forall e: Entry, l: nat, p: nat {:trigger Look(t1, e, l, p)} {:trigger Look(t0, e, l, p)} ::
         EntryOk(e, l, Shift(p, l), t0.labels) ==>
           && EntryOk(e, l, Shift(p, l), t1.labels)
           && (Look(t1, e, l, p) == Look(t0, e, l, p)
               || (lo <= p < hi && Look(t1, e, l, p).ptr == leaf))
  }

  lemma KeptTrans(t0: Tree, t1: Tree, t2: Tree, lo: nat, mid: nat, hi: nat, leaf: nat)
    requires lo <= mid <= hi
    requires Kept(t0, t1, lo, mid, leaf) && Kept(t1, t2, mid, hi, leaf)
    ensures Kept(t0, t2, lo, hi, leaf)
  {
    forall e: Entry, l: nat, p: nat | EntryOk(e, l, Shift(p, l), t0.labels)
      ensures EntryOk(e, l, Shift(p, l), t2.labels)
      ensures Look(t2, e, l, p) == Look(t0, e, l, p) || (lo <= p < hi && Look(t2, e, l, p).ptr == leaf)
    {
      var f0 := Look(t0, e, l, p);
      var f1 := Look(t1, e, l, p);
    }
  }

  lemma KeptRefl(t: Tree, lo: nat, leaf: nat)
    requires WellFormed(t)
    ensures Kept(t, t, lo, lo, leaf)
  {
  }

  /** Tree t with slot k of node n replaced. */
  function Put(t: Tree, n: nat, k: nat, e: Entry): Tree
    requires n < |t.nodes| && k < 1024
  {
    t.(nodes := t.nodes[n := t.nodes[n][k := e]])
  }

  /** Storing a leaf changes exactly the walks of the block that the slot stands for. */
  lemma LeafStored(t: Tree, n: nat, k: nat, leaf: nat, b: nat)
    requires WellFormed(t) && n < |t.nodes| && k < 1024
    requires Unshift(t.labels[n].prefix * 1024 + k, t.labels[n].level) == b
    ensures Kept(t, Put(t, n, k, Entry(false, leaf)), b, b + Step(t.labels[n].level), leaf)
  {
    var t1 := Put(t, n, k, Entry(false, leaf));
    StepPositive(t.labels[n].level);
    forall m | 0 <= m < |t1.nodes|
      ensures NodeOk(t1.nodes[m], t1.labels[m], t1.labels)
    {
      assert NodeOk(t.nodes[m], t.labels[m], t.labels);
    }
    forall e: Entry, l: nat, p: nat | EntryOk(e, l, Shift(p, l), t.labels)
      ensures Look(t1, e, l, p) == Look(t, e, l, p)
              || (b <= p < b + Step(t.labels[n].level) && Look(t1, e, l, p).ptr == leaf)
    {
      LeafStoredWalk(t, n, k, leaf, b, e, l, p);
    }
  }

  lemma {:induction false} LeafStoredWalk(t: Tree, n: nat, k: nat, leaf: nat, b: nat, e: Entry, l: nat, p: nat)
    requires WellFormed(t) && n < |t.nodes| && k < 1024
    requires Unshift(t.labels[n].prefix * 1024 + k, t.labels[n].level) == b
    requires WellFormed(Put(t, n, k, Entry(false, leaf)))
    requires EntryOk(e, l, Shift(p, l), t.labels)
    ensures var t1 := Put(t, n, k, Entry(false, leaf));
            Look(t1, e, l, p) == Look(t, e, l, p)
            || (b <= p < b + Step(t.labels[n].level) && Look(t1, e, l, p).ptr == leaf)
    decreases l
  {
    if e.skip && e.ptr != NIL {
      var j := Shift(p, l - 1) % 1024;
      assert NodeOk(t.nodes[e.ptr], t.labels[e.ptr], t.labels);
      if e.ptr == n && j == k {
        BlockOf(p, t.labels[n].prefix * 1024 + k, l - 1);
      } else {
        LeafStoredWalk(t, n, k, leaf, b, t.nodes[e.ptr][j], l - 1, p);
      }
    }
  }

  /** What phys_map_node_alloc leaves in a new node, and what level 0 turns it into. */
  function FreshNode(level: nat): Node {
    seq(1024, _ => if level == 0 then Entry(false, UNASSIGNED) else Entry(true, NIL))
  }

  /** Tree t with one more, empty node. */
  function Grown(t: Tree, at: Label): Tree {
    Tree(t.nodes + [FreshNode(at.level)], t.labels + [at])
  }

  /** Adding a node changes no walk, and a walk into it finds nothing. */
  lemma NodeAdded(t: Tree, at: Label, lo: nat, leaf: nat)
    requires WellFormed(t) && |t.nodes| < NIL
    ensures Kept(t, Grown(t, at), lo, lo, leaf)
    ensures forall p: nat :: Under(at, p) ==>
              Look(Grown(t, at), Entry(true, |t.nodes|), at.level + 1, p) == Found(UNASSIGNED, 0)
  {
    var t1 := Grown(t, at);
    forall m | 0 <= m < |t1.nodes|
      ensures NodeOk(t1.nodes[m], t1.labels[m], t1.labels)
    {
      if m < |t.nodes| { assert NodeOk(t.nodes[m], t.labels[m], t.labels); }
    }
    forall e: Entry, l: nat, p: nat | EntryOk(e, l, Shift(p, l), t.labels)
      ensures Look(t1, e, l, p) == Look(t, e, l, p)
    {
      NodeAddedWalk(t, at, e, l, p);
    }
  }

  lemma {:induction false} NodeAddedWalk(t: Tree, at: Label, e: Entry, l: nat, p: nat)
    requires WellFormed(t) && WellFormed(Grown(t, at))
    requires EntryOk(e, l, Shift(p, l), t.labels)
    ensures Look(Grown(t, at), e, l, p) == Look(t, e, l, p)
    decreases l
  {
    if e.skip && e.ptr != NIL {
      assert NodeOk(t.nodes[e.ptr], t.labels[e.ptr], t.labels);
      NodeAddedWalk(t, at, t.nodes[e.ptr][Shift(p, l - 1) % 1024], l - 1, p);
    }
  }

  /** Pointing an empty slot at an empty node changes no walk. */
  lemma NodeLinked(t: Tree, n: nat, k: nat, m: nat, lo: nat, leaf: nat)
    requires WellFormed(t) && n < |t.nodes| && k < 1024 && m < |t.nodes|
    requires t.nodes[n][k] == Entry(true, NIL) && t.labels[n].level > 0
    requires t.labels[m] == Label(t.labels[n].level - 1, t.labels[n].prefix * 1024 + k)
    requires t.nodes[m] == FreshNode(t.labels[m].level)
    ensures Kept(t, Put(t, n, k, Entry(true, m)), lo, lo, leaf)
  {
    var t1 := Put(t, n, k, Entry(true, m));
    forall i | 0 <= i < |t1.nodes|
      ensures NodeOk(t1.nodes[i], t1.labels[i], t1.labels)
    {
      assert NodeOk(t.nodes[i], t.labels[i], t.labels);
    }
    forall e: Entry, l: nat, p: nat | EntryOk(e, l, Shift(p, l), t.labels)
      ensures Look(t1, e, l, p) == Look(t, e, l, p)
    {
      NodeLinkedWalk(t, n, k, m, e, l, p);
    }
  }

  lemma {:induction false} NodeLinkedWalk(t: Tree, n: nat, k: nat, m: nat, e: Entry, l: nat, p: nat)
    requires WellFormed(t) && n < |t.nodes| && k < 1024 && m < |t.nodes|
    requires t.nodes[n][k] == Entry(true, NIL) && t.labels[n].level > 0
    requires t.labels[m] == Label(t.labels[n].level - 1, t.labels[n].prefix * 1024 + k)
    requires t.nodes[m] == FreshNode(t.labels[m].level)
    requires WellFormed(Put(t, n, k, Entry(true, m)))
    requires EntryOk(e, l, Shift(p, l), t.labels)
    ensures Look(Put(t, n, k, Entry(true, m)), e, l, p) == Look(t, e, l, p)
    decreases l
  {
    if e.skip && e.ptr != NIL {
      var j := Shift(p, l - 1) % 1024;
      assert NodeOk(t.nodes[e.ptr], t.labels[e.ptr], t.labels);
      NodeLinkedWalk(t, n, k, m, t.nodes[e.ptr][j], l - 1, p);
      if e.ptr == n && j == k {
        var t1 := Put(t, n, k, Entry(true, m));
        assert NodeOk(t1.nodes[m], t1.labels[m], t1.labels);
        assert n != m;
        assert Look(t1, Entry(true, m), l - 1, p) == Found(UNASSIGNED, 0);
      }
    }
  }

  // ---- The flat map that the tree stands for --------------------------------------------

  /** The level-l block of page p lies inside [lo, hi). */
  predicate BlockIn(p: nat, l: nat, lo: nat, hi: nat) {
    lo <= Unshift(Shift(p, l), l) && Unshift(Shift(p, l), l) + Step(l) <= hi
  }

  /** The highest level, up to l, at which p's block lies inside [lo, hi). */
  function FillLevel(p: nat, lo: nat, hi: nat, l: nat): nat {
    if l == 0 || BlockIn(p, l, lo, hi) then l else FillLevel(p, lo, hi, l - 1)
  }

  /** A leaf above level 0 that meets [lo, hi) lies inside it, so filling never enters it. */
  predicate Fits(f: Found, p: nat, lo: nat, hi: nat) {
    f.level == 0 || BlockIn(p, f.level, lo, hi)
  }

  /** One phys_page_set on the flat map. */
  function Fill(pages: seq<Found>, index: nat, nb: nat, leaf: nat, top: nat): (r: seq<Found>) {
    seq(|pages|, p requires 0 <= p < |pages| =>
      if index <= p < index + nb then Found(leaf, FillLevel(p, index, index + nb, top)) else pages[p])
  }

  /** Pages [from, upto), all in the block behind entry e, end on leaf, each at the highest level
      that [lo, hi) allows. */
  ghost predicate Written(t: Tree, e: Entry, at: Label, from: nat, upto: nat, lo: nat, hi: nat, leaf: nat) {
    && WellFormed(t) && EntryOk(e, at.level + 1, at.prefix, t.labels)
    && forall p: nat :: from <= p < upto ==>
         Under(at, p) && Look(t, e, at.level + 1, p) == Found(leaf, FillLevel(p, lo, hi, at.level))
  }

  /** The part of the block behind entry e that meets [index, hi) may be filled. */
  ghost predicate Open(t: Tree, e: Entry, at: Label, index: nat, lo: nat, hi: nat)
    requires WellFormed(t) && EntryOk(e, at.level + 1, at.prefix, t.labels)
  {
    forall p: nat :: index <= p < hi && Under(at, p) ==> Fits(Look(t, e, at.level + 1, p), p, lo, hi)
  }

  lemma {:induction false} LookLevel(t: Tree, e: Entry, l: nat, p: nat)
    requires WellFormed(t) && EntryOk(e, l, Shift(p, l), t.labels)
    ensures Look(t, e, l, p).level <= l
    decreases l
  {
    if e.skip && e.ptr != NIL {
      assert NodeOk(t.nodes[e.ptr], t.labels[e.ptr], t.labels);
      LookLevel(t, t.nodes[e.ptr][Shift(p, l - 1) % 1024], l - 1, p);
    }
  }

  /** A block at a lower level does not straddle the start of a block at a higher one. */
  lemma {:induction false} BlocksNest(p: nat, s: nat, l: nat, m: nat)
    requires l <= m && Unshift(s, m) <= p
    ensures Unshift(s, m) <= Unshift(Shift(p, l), l)
    decreases m
  {
    if l == m {
      Galois(p, s, l);
      UnshiftMonotone(s, Shift(p, l), l);
    } else {
      BlocksNest(p, s * 1024, l, m - 1);
    }
  }

  lemma UnshiftMonotone(a: nat, b: nat, l: nat)
    requires a <= b
    ensures Unshift(a, l) <= Unshift(b, l)
  {
    UnshiftAdd(a, b - a, l);
  }

  /** Moving the lower bound up to a block start at or below p does not change the fill level. */
  lemma {:induction false} FillLevelLo(p: nat, lo: nat, s: nat, hi: nat, l: nat, m: nat)
    requires l <= m && lo <= Unshift(s, m) <= p
    ensures FillLevel(p, lo, hi, l) == FillLevel(p, Unshift(s, m), hi, l)
  {
    BlocksNest(p, s, l, m);
    if l > 0 { FillLevelLo(p, lo, s, hi, l - 1, m); }
  }

  /** Where slot k of a node at `at` lies in that node's pages. */
  lemma SlotRange(at: Label, k: nat)
    requires k < 1024
    ensures Unshift(at.prefix, at.level + 1) <= Unshift(at.prefix * 1024 + k, at.level)
    ensures Unshift(at.prefix * 1024 + k, at.level) + Step(at.level) == Unshift(at.prefix * 1024 + k + 1, at.level)
    ensures Unshift(at.prefix * 1024 + 1024, at.level) == Unshift(at.prefix, at.level + 1) + Step(at.level + 1)
    ensures Unshift(at.prefix * 1024 + k + 1, at.level) <= Unshift(at.prefix, at.level + 1) + Step(at.level + 1)
    ensures k == 0 ==> Unshift(at.prefix * 1024 + k, at.level) == Unshift(at.prefix, at.level + 1)
  {
    UnshiftAdd(at.prefix * 1024 + k, 1, at.level);
    UnshiftAdd(at.prefix * 1024, 1024, at.level);
    UnshiftMonotone(at.prefix * 1024, at.prefix * 1024 + k, at.level);
    UnshiftMonotone(at.prefix * 1024 + k + 1, at.prefix * 1024 + 1024, at.level);
  }

  /** One turn of the fill loop extends what has been filled so far. */
  lemma Advance(t1: Tree, t: Tree, t2: Tree, n: nat, at: Label, lo: nat, index: nat, next: nat, hi: nat, leaf: nat)
    requires lo <= index <= next && Kept(t1, t, lo, index, leaf) && Kept(t, t2, index, next, leaf)
    requires n < |t.nodes| && t.labels[n] == at && n != NIL
    requires Written(t, Entry(true, n), at, lo, index, lo, hi, leaf)
    requires Written(t2, Entry(true, n), at, index, next, lo, hi, leaf)
    ensures Kept(t1, t2, lo, next, leaf)
    ensures Written(t2, Entry(true, n), at, lo, next, lo, hi, leaf)
  {
    KeptTrans(t1, t, t2, lo, index, next, leaf);
    forall p: nat | lo <= p < next
      ensures Under(at, p)
      ensures Look(t2, Entry(true, n), at.level + 1, p) == Found(leaf, FillLevel(p, lo, hi, at.level))
    {
      assert Under(at, p);
      if p < index {
        assert Look(t2, Entry(true, n), at.level + 1, p) == Look(t, Entry(true, n), at.level + 1, p);
      }
    }
  }

  /** The turn that stores a leaf. */
  lemma LeafTurn(t: Tree, n: nat, k: nat, at: Label, lo: nat, index: nat, hi: nat, leaf: nat)
    requires WellFormed(t) && n < |t.nodes| && t.labels[n] == at && k < 1024 && n != NIL
    requires index == Unshift(at.prefix * 1024 + k, at.level)
    requires lo <= index && index + Step(at.level) <= hi
    ensures var t2, next := Put(t, n, k, Entry(false, leaf)), index + Step(at.level);
            Kept(t, t2, index, next, leaf) && Written(t2, Entry(true, n), at, index, next, lo, hi, leaf)
  {
    var t2 := Put(t, n, k, Entry(false, leaf));
    LeafStored(t, n, k, leaf, index);
    forall p: nat | index <= p < index + Step(at.level)
      ensures Under(at, p)
      ensures Look(t2, Entry(true, n), at.level + 1, p) == Found(leaf, FillLevel(p, lo, hi, at.level))
    {
      BlockOf(p, at.prefix * 1024 + k, at.level);
      assert NodeOk(t2.nodes[n], at, t2.labels);
    }
  }

  /** How many nodes one call may allocate below an entry placed over `at`: one per level when the
      range starts at the block's first page or runs past its last, otherwise up to two per level. */
  function Need(at: Label, index: nat, hi: nat): nat {
    if index == Unshift(at.prefix, at.level + 1) || hi >= Unshift(at.prefix, at.level + 1) + Step(at.level + 1)
    then at.level + 1 else 2 * at.level + 1
  }

  /** How far a fill of [.., hi) gets within the block of `at`. */
  function Reached(at: Label, hi: nat): nat {
    var end := Unshift(at.prefix, at.level + 1) + Step(at.level + 1);
    if hi < end then hi else end
  }

  /** How many nodes the loop may have allocated when it has filled [lo, index). */
  function Spent(at: Label, lo: nat, index: nat, hi: nat): nat {
    if index == lo then 0
    else if index == hi then Need(at, lo, hi) - 1
    else if lo == Unshift(Shift(lo, at.level), at.level) then 0
    else at.level
  }

  /** The loop is about to handle slot k: it has filled [lo, index) and is at that slot's block. */
  ghost predicate Cursor(at: Label, k: nat, lo: nat, index: nat, hi: nat) {
    && k <= 1024 && lo <= index <= Reached(at, hi)
    && (index == lo ==> k == Shift(lo, at.level) % 1024)
    && (lo < index < hi ==> index == Unshift(at.prefix * 1024 + k, at.level))
  }

  /** The loop is at slot k, and its block does not fit in what is left of the range. */
  ghost predicate Partial(at: Label, k: nat, lo: nat, index: nat, hi: nat) {
    && k < 1024 && lo <= index < hi
    && Shift(index, at.level) == at.prefix * 1024 + k
    && (index == lo || index == Unshift(at.prefix * 1024 + k, at.level))
    && !(index == Unshift(at.prefix * 1024 + k, at.level) && index + Step(at.level) <= hi)
  }

  lemma CursorStart(at: Label, lo: nat, hi: nat)
    requires Under(at, lo) && lo <= hi
    ensures Cursor(at, Shift(lo, at.level) % 1024, lo, lo, hi)
  {
    BlockOf(lo, at.prefix, at.level + 1);
  }

  lemma CursorEnd(at: Label, k: nat, lo: nat, index: nat, hi: nat)
    requires Cursor(at, k, lo, index, hi) && (index == hi || k == 1024)
    ensures index == Reached(at, hi)
    ensures Spent(at, lo, index, hi) <= Need(at, lo, hi) - 1
  {
    SlotRange(at, 0);
  }

  /** Inside the loop, the tests of the source say whether slot k's block fits. */
  lemma CursorInside(at: Label, k: nat, lo: nat, index: nat, hi: nat)
    requires Cursor(at, k, lo, index, hi) && index < hi && k < 1024 && Under(at, lo)
    ensures Step(at.level) > 0
    ensures index % Step(at.level) == 0 && index + Step(at.level) <= hi ==>
              && index == Unshift(at.prefix * 1024 + k, at.level)
              && Cursor(at, k + 1, lo, index + Step(at.level), hi)
              && Spent(at, lo, index, hi) <= Spent(at, lo, index + Step(at.level), hi)
    ensures !(index % Step(at.level) == 0 && index + Step(at.level) <= hi) ==>
              Partial(at, k, lo, index, hi)
  {
    AlignedIsBlockStart(index, at.level);
    SlotRange(at, k);
    BlockOf(index, at.prefix * 1024 + k, at.level);
  }

  /** A recursive turn moves to the next slot and stays within the allowance, whichever end of the
      range it handles. */
  lemma CursorChild(at: Label, k: nat, lo: nat, index: nat, hi: nat) returns (next: nat, spent: nat)
    requires at.level > 0 && Partial(at, k, lo, index, hi) && Under(at, lo)
    ensures var child := Label(at.level - 1, at.prefix * 1024 + k);
            && next == Reached(child, hi) && Cursor(at, k + 1, lo, next, hi) && spent == Spent(at, lo, next, hi)
            && Spent(at, lo, index, hi) + Need(child, index, hi) <= spent <= Need(at, lo, hi) - 1
  {
    next := Reached(Label(at.level - 1, at.prefix * 1024 + k), hi);
    spent := Spent(at, lo, next, hi);
    SlotRange(at, k);
    BlockOf(index, at.prefix * 1024 + k, at.level);
    BlockOf(lo, at.prefix, at.level + 1);
    BlockOf(lo, at.prefix * 1024, at.level);
    StepPositive(at.level);
  }

  lemma ChildFits(t1: Tree, t: Tree, n: nat, k: nat, at: Label, lo: nat, index: nat, hi: nat, leaf: nat, p: nat)
    requires Partial(at, k, lo, index, hi)
    requires WellFormed(t1) && n < |t1.nodes| && t1.labels[n] == at && n != NIL
    requires Open(t1, Entry(true, n), at, lo, lo, hi)
    requires Kept(t1, t, lo, index, leaf)
    requires index <= p < hi && Shift(p, at.level) == at.prefix * 1024 + k
    ensures n < |t.nodes| && k < |t.nodes[n]| && Fits(Look(t, t.nodes[n][k], at.level, p), p, index, hi)
  {
    assert NodeOk(t.nodes[n], t.labels[n], t.labels);
    var e, l := t.nodes[n][k], at.level;
    assert Under(at, p);
    assert Look(t, Entry(true, n), l + 1, p) == Look(t1, Entry(true, n), l + 1, p);
    LookLevel(t, e, l, p);
    if index != lo {
      BlocksNest(p, at.prefix * 1024 + k, Look(t, e, l, p).level, l);
    }
  }

  /** The turn that recurses never does so into a leaf, and may do so into the child. */
  lemma ChildOpen(t1: Tree, t: Tree, n: nat, k: nat, at: Label, lo: nat, index: nat, hi: nat, leaf: nat)
    requires Partial(at, k, lo, index, hi)
    requires WellFormed(t1) && n < |t1.nodes| && t1.labels[n] == at && n != NIL
    requires Open(t1, Entry(true, n), at, lo, lo, hi)
    requires Kept(t1, t, lo, index, leaf)
    ensures at.level > 0 && t.nodes[n][k].skip
    ensures EntryOk(t.nodes[n][k], at.level, at.prefix * 1024 + k, t.labels)
    ensures Open(t, t.nodes[n][k], Label(at.level - 1, at.prefix * 1024 + k), index, index, hi)
  {
    assert NodeOk(t.nodes[n], t.labels[n], t.labels);
    var e, l := t.nodes[n][k], at.level;
    forall p: nat | index <= p < hi && Shift(p, l) == at.prefix * 1024 + k
      ensures Fits(Look(t, e, l, p), p, index, hi)
    {
      ChildFits(t1, t, n, k, at, lo, index, hi, leaf, p);
    }
    BlockOf(index, at.prefix * 1024 + k, l);
    assert Fits(Look(t, e, l, index), index, index, hi);
    if l > 0 {
      forall p: nat | index <= p < hi && Under(Label(l - 1, at.prefix * 1024 + k), p)
        ensures Fits(Look(t, e, l, p), p, index, hi)
      {
        assert Shift(p, l) == at.prefix * 1024 + k;
      }
    }
  }

  /** What the recursive turn wrote, seen from the parent. */
  lemma ChildTurn(t2: Tree, n: nat, k: nat, at: Label, lo: nat, index: nat, next: nat, hi: nat, leaf: nat)
    requires Partial(at, k, lo, index, hi) && at.level > 0
    requires WellFormed(t2) && n < |t2.nodes| && t2.labels[n] == at && n != NIL
    requires Written(t2, t2.nodes[n][k], Label(at.level - 1, at.prefix * 1024 + k), index, next, index, hi, leaf)
    ensures Written(t2, Entry(true, n), at, index, next, lo, hi, leaf)
  {
    BlockOf(index, at.prefix * 1024 + k, at.level);
    forall p: nat | index <= p < next
      ensures Under(at, p)
      ensures Look(t2, Entry(true, n), at.level + 1, p) == Found(leaf, FillLevel(p, lo, hi, at.level))
    {
      assert Under(Label(at.level - 1, at.prefix * 1024 + k), p);
      assert NodeOk(t2.nodes[n], at, t2.labels);
      if index != lo {
        FillLevelLo(p, lo, at.prefix * 1024 + k, hi, at.level - 1, at.level);
      }
    }
  }

  /** The flat map that root entry e stands for. */
  ghost function View(t: Tree, e: Entry, levels: nat): (r: seq<Found>)
    requires WellFormed(t) && EntryOk(e, levels, 0, t.labels)
    ensures |r| == Step(levels)
  {
    seq(Step(levels), p requires 0 <= p < Step(levels) =>
      BlockOf(p, 0, levels); UnshiftAdd(0, 0, levels);
      Look(t, e, levels, p))
  }

  lemma ViewOpen(t: Tree, e: Entry, levels: nat, at: Label, index: nat, hi: nat)
    requires levels > 0 && at == Label(levels - 1, 0)
    requires WellFormed(t) && EntryOk(e, levels, 0, t.labels)
    requires index < Step(levels) && hi <= Step(levels)
    requires forall p :: index <= p < hi ==> Fits(View(t, e, levels)[p], p, index, hi)
    ensures Under(at, index)
    ensures Open(t, e, at, index, index, hi)
  {
    UnshiftAdd(0, 0, levels);
    BlockOf(index, 0, levels);
    forall p: nat | index <= p < hi && Under(at, p)
      ensures Fits(Look(t, e, at.level + 1, p), p, index, hi)
    {
      assert View(t, e, levels)[p] == Look(t, e, levels, p);
    }
  }

  lemma ViewFilled(t0: Tree, e0: Entry, t1: Tree, e1: Entry, levels: nat, at: Label, index: nat, nb: nat, leaf: nat)
    requires levels > 0 && at == Label(levels - 1, 0)
    requires WellFormed(t0) && EntryOk(e0, levels, 0, t0.labels)
    requires index + nb <= Step(levels)
    requires Written(t1, e1, at, index, index + nb, index, index + nb, leaf)
    requires forall p: nat :: Under(at, p) && !(index <= p < index + nb) ==>
               Look(t1, e1, at.level + 1, p) == Look(t0, e0, at.level + 1, p)
    ensures View(t1, e1, levels) == Fill(View(t0, e0, levels), index, nb, leaf, levels - 1)
  {
    UnshiftAdd(0, 0, levels);
    forall p: nat | p < Step(levels)
      ensures View(t1, e1, levels)[p] == Fill(View(t0, e0, levels), index, nb, leaf, levels - 1)[p]
    {
      BlockOf(p, 0, levels);
      assert Under(at, p);
    }
  }

  // ---- The map itself ----------------------------------------------------------------------

  /** Which entry phys_page_set_level was handed: the root, or slot k of node n. */
  datatype Loc = Root | Slot(n: nat, k: nat)

  class PhysPageMap {
    const levels: nat
    var root: Entry
    var nodes: seq<Node>
    var nodesAlloc: nat
    ghost var labels: seq<Label>

    ghost function T(): Tree
      reads this
    {
      Tree(nodes, labels)
    }

    ghost predicate Valid()
      reads this
    {
      && levels > 0
      && WellFormed(T())
      && EntryOk(root, levels, 0, labels) && root.skip
      && |nodes| <= nodesAlloc
    }

    /** The flat map: for every page of the address space, the section its walk ends on. */
    ghost function Pages(): (r: seq<Found>)
      requires Valid()
      reads this
      ensures |r| == Step(levels)
    {
      View(T(), root, levels)
    }

    /** The empty map of mem_begin. */
    constructor (levels: nat)
      requires levels > 0
      ensures Valid() && this.levels == levels && nodes == [] && nodesAlloc == 0
      ensures forall p :: 0 <= p < |Pages()| ==> Pages()[p] == Found(UNASSIGNED, 0)
    {
      this.levels := levels;
      root := Entry(true, NIL);
      nodes := [];
      labels := [];
      nodesAlloc := 0;
    }

    /** phys_map_node_reserve */
    method Reserve(count: nat)
      requires Valid()
      modifies this`nodesAlloc
      ensures Valid() && nodesAlloc >= |nodes| + count
      ensures old(nodesAlloc) >= |nodes| + count ==> nodesAlloc == old(nodesAlloc)
      ensures old(nodesAlloc) < |nodes| + count ==> nodesAlloc >= 16 && nodesAlloc >= 2 * old(nodesAlloc)
    {
      if |nodes| + count > nodesAlloc {
        nodesAlloc := if nodesAlloc * 2 > 16 then nodesAlloc * 2 else 16;
        nodesAlloc := if nodesAlloc > |nodes| + count then nodesAlloc else |nodes| + count;
      }
    }

    /** phys_page_find, on the page number of the address */
    method Find(page: nat) returns (ptr: nat)
      requires Valid() && page < Step(levels)
      ensures ptr == Pages()[page].ptr
    {
      BlockOf(page, 0, levels);
      UnshiftAdd(0, 0, levels);
      var lp, i := root, levels;
      while lp.skip
        invariant 0 <= i <= levels
        invariant EntryOk(lp, i, Shift(page, i), labels)
        invariant Look(T(), lp, i, page) == Look(T(), root, levels, page)
        decreases i
      {
        i := i - 1;
        if lp.ptr == NIL {
          return UNASSIGNED;
        }
        assert NodeOk(nodes[lp.ptr], labels[lp.ptr], labels);
        lp := nodes[lp.ptr][Shift(page, i) % 1024];
      }
      return lp.ptr;
    }

    // ---- Filling ----

    function EntryAt(lp: Loc): Entry
      requires lp.Slot? ==> lp.n < |nodes| && lp.k < 1024
      reads this
    {
      if lp.Root? then root else nodes[lp.n][lp.k]
    }

    /** lp is an entry whose child, if any, sits at `at`. */
    ghost predicate LocOk(lp: Loc, at: Label)
      reads this
    {
      match lp
      case Root => levels > 0 && at == Label(levels - 1, 0)
      case Slot(n, k) => n < |nodes| == |labels| && k < 1024 && labels[n] == Label(at.level + 1, labels[n].prefix)
                         && labels[n].prefix * 1024 + k == at.prefix
    }

    /** phys_map_node_alloc: a new node for lp, which has none. `ok` is false when node numbers run out and the source
        aborts. */
    method NewNode(lp: Loc, level: nat, ghost at: Label, ghost lo: nat, ghost leaf: nat)
      returns (ok: bool, n: nat)
      requires Valid() && at.level == level && LocOk(lp, at) && EntryAt(lp) == Entry(true, NIL)
      requires |nodes| < nodesAlloc
      modifies this`root, this`nodes, this`labels
      ensures ok <==> old(|nodes|) != NIL
      ensures |nodes| == old(|nodes|) + (if ok then 1 else 0)
      ensures ok ==> Valid() && LocOk(lp, at) && n < |nodes| && EntryAt(lp) == Entry(true, n) && labels[n] == at
      ensures ok ==> Kept(old(T()), T(), lo, lo, leaf)
      ensures ok ==> forall p: nat :: Under(at, p) ==>
                Look(T(), Entry(true, n), at.level + 1, p) == old(Look(T(), EntryAt(lp), at.level + 1, p))
      ensures lp.Slot? ==> root == old(root)
      ensures ok ==> forall m, j :: 0 <= m < old(|nodes|) && 0 <= j < 1024 && Slot(m, j) != lp ==>
                nodes[m][j] == old(nodes[m][j])
    {
      ghost var t := T();
      if lp.Slot? { assert NodeOk(nodes[lp.n], labels[lp.n], labels); }
      n := |nodes|;
      if n == NIL {
        return false, 0;
      }
      assert n != nodesAlloc;
      NodeAdded(t, at, lo, leaf);
      nodes := nodes + [seq(1024, _ => Entry(true, NIL))];
      labels := labels + [at];
      match lp {
        case Root => root := Entry(true, n);
        case Slot(m, k) => nodes := nodes[m := nodes[m][k := Entry(true, n)]];
      }
      if level == 0 {
        nodes := nodes[n := seq(1024, _ => Entry(false, UNASSIGNED))];
      }
      ghost var t1 := Grown(t, at);
      if lp.Slot? {
        assert T() == Put(t1, lp.n, lp.k, Entry(true, n));
        NodeLinked(t1, lp.n, lp.k, n, lo, leaf);
        KeptTrans(t, t1, T(), lo, lo, lo, leaf);
      } else {
        assert T() == t1;
      }
      ok := true;
    }

    /** The start of phys_page_set_level: the node behind lp, which is created if lp has none. */
    method NodeBehind(lp: Loc, level: nat, ghost at: Label, ghost lo: nat, ghost leaf: nat)
      returns (ok: bool, n: nat)
      requires Valid() && at.level == level && LocOk(lp, at) && EntryAt(lp).skip
      requires |nodes| < nodesAlloc
      modifies this`root, this`nodes, this`labels
      ensures ok <==> !(old(EntryAt(lp).ptr) == NIL && old(|nodes|) == NIL)
      ensures |nodes| == old(|nodes|) + (if ok && old(EntryAt(lp).ptr) == NIL then 1 else 0)
      ensures ok ==> Valid() && LocOk(lp, at) && n < |nodes| && EntryAt(lp) == Entry(true, n) && labels[n] == at
      ensures ok ==> Kept(old(T()), T(), lo, lo, leaf)
      ensures ok ==> forall p: nat :: Under(at, p) ==>
                Look(T(), Entry(true, n), at.level + 1, p) == old(Look(T(), EntryAt(lp), at.level + 1, p))
      ensures lp.Slot? ==> root == old(root)
      ensures ok ==> forall m, j :: 0 <= m < old(|nodes|) && 0 <= j < 1024 && Slot(m, j) != lp ==>
                nodes[m][j] == old(nodes[m][j])
    {
      if EntryAt(lp).ptr == NIL {
        ok, n := NewNode(lp, level, at, lo, leaf);
      } else {
        if lp.Slot? { assert NodeOk(nodes[lp.n], labels[lp.n], labels); }
        KeptRefl(T(), lo, leaf);
        ok, n := true, EntryAt(lp).ptr;
      }
    }

    /** phys_page_set_level */
    method SetLevel(lp: Loc, index0: nat, nb0: nat, leaf: nat, level: nat, ghost at: Label)
      returns (ok: bool, index: nat, nb: nat)
      requires Valid() && at.level == level && LocOk(lp, at) && EntryAt(lp).skip
      requires Under(at, index0)
      requires |nodes| + Need(at, index0, index0 + nb0) <= nodesAlloc
      requires EntryOk(EntryAt(lp), level + 1, at.prefix, labels)
      requires Open(T(), EntryAt(lp), at, index0, index0, index0 + nb0)
      modifies this`root, this`nodes, this`labels
      ensures old(|nodes|) <= |nodes| <= old(|nodes|) + Need(at, index0, index0 + nb0)
      ensures !ok ==> |nodes| == NIL < old(|nodes|) + Need(at, index0, index0 + nb0)
      ensures ok ==> Valid() && LocOk(lp, at) && EntryAt(lp).skip && EntryAt(lp).ptr != NIL
      ensures ok ==> index + nb == index0 + nb0 && index0 <= index == Reached(at, index0 + nb0)
      ensures ok ==> Kept(old(T()), T(), index0, index, leaf)
      ensures ok ==> Written(T(), EntryAt(lp), at, index0, index, index0, index0 + nb0, leaf)
      ensures ok ==> forall p: nat :: Under(at, p) && !(index0 <= p < index) ==>
                Look(T(), EntryAt(lp), at.level + 1, p) == old(Look(T(), EntryAt(lp), at.level + 1, p))
      ensures lp.Slot? ==> root == old(root)
      ensures ok ==> forall m, j | 0 <= m < old(|nodes|) && 0 <= j < 1024 && old(labels[m].level) > level
                :: Slot(m, j) != lp ==> nodes[m][j] == old(nodes[m][j])
      decreases level, 3
    {
      var n;
      ok, n := NodeBehind(lp, level, at, index0, leaf);
      index, nb := index0, nb0;
      if !ok {
        return;
      }
      ghost var t1 := T();
      ok, index, nb := FillNode(n, index0, nb0, leaf, level, at);
      if ok {
        KeptTrans(old(T()), t1, T(), index0, index0, index, leaf);
      }
    }

    /** The loop of phys_page_set_level over the entries of node n. */
    method FillNode(n: nat, index0: nat, nb0: nat, leaf: nat, level: nat, ghost at: Label)
      returns (ok: bool, index: nat, nb: nat)
      requires Valid() && at.level == level && n < |nodes| && labels[n] == at && n != NIL
      requires Under(at, index0)
      requires |nodes| + Need(at, index0, index0 + nb0) <= nodesAlloc + 1
      requires Open(T(), Entry(true, n), at, index0, index0, index0 + nb0)
      modifies this`root, this`nodes, this`labels
      ensures old(|nodes|) <= |nodes| <= old(|nodes|) + Need(at, index0, index0 + nb0) - 1
      ensures !ok ==> |nodes| == NIL < old(|nodes|) + Need(at, index0, index0 + nb0) - 1
      ensures root == old(root)
      ensures ok ==> Valid()
      ensures ok ==> index + nb == index0 + nb0 && index0 <= index == Reached(at, index0 + nb0)
      ensures ok ==> Kept(old(T()), T(), index0, index, leaf)
      ensures ok ==> Written(T(), Entry(true, n), at, index0, index, index0, index0 + nb0, leaf)
      ensures ok ==> forall m | 0 <= m < old(|nodes|) && old(labels[m].level) > level :: nodes[m] == old(nodes[m])
      decreases level, 2
    {
      ok, index, nb := true, index0, nb0;
      ghost var t1, hi := T(), index0 + nb0;
      var k := Shift(index, level) % 1024;
      KeptRefl(t1, index0, leaf);
      CursorStart(at, index0, hi);
      while nb > 0 && k < 1024
        invariant index + nb == hi && Cursor(at, k, index0, index, hi)
        invariant Valid() && root == old(root) && n < |nodes| && labels[n] == at
        invariant Kept(t1, T(), index0, index, leaf)
        invariant Written(T(), Entry(true, n), at, index0, index, index0, hi, leaf)
        invariant forall m | 0 <= m < |t1.nodes| && t1.labels[m].level > level :: nodes[m] == t1.nodes[m]
        invariant |t1.nodes| <= |nodes| <= |t1.nodes| + Spent(at, index0, index, hi)
        decreases 1024 - k
      {
        ok, index, nb := FillSlot(n, k, index, nb, leaf, level, at, t1, index0);
        if !ok {
          return;
        }
        k := k + 1;
      }
      CursorEnd(at, k, index0, index, hi);
    }

    /** One turn of that loop. */
    method FillSlot(n: nat, k: nat, index0: nat, nb0: nat, leaf: nat, level: nat,
                    ghost at: Label, ghost t1: Tree, ghost lo: nat)
      returns (ok: bool, index: nat, nb: nat)
      requires Valid() && at.level == level && n < |nodes| && labels[n] == at
      requires nb0 > 0 && k < 1024 && Cursor(at, k, lo, index0, index0 + nb0) && Under(at, lo)
      requires WellFormed(t1) && n < |t1.nodes| && t1.labels[n] == at && n != NIL
      requires Open(t1, Entry(true, n), at, lo, lo, index0 + nb0)
      requires Kept(t1, T(), lo, index0, leaf)
      requires Written(T(), Entry(true, n), at, lo, index0, lo, index0 + nb0, leaf)
      requires |t1.nodes| + Need(at, lo, index0 + nb0) <= nodesAlloc + 1
      requires |nodes| <= |t1.nodes| + Spent(at, lo, index0, index0 + nb0)
      modifies this`root, this`nodes, this`labels
      ensures old(|nodes|) <= |nodes|
      ensures !ok ==> |nodes| == NIL < |t1.nodes| + Need(at, lo, index0 + nb0) - 1
      ensures root == old(root)
      ensures ok ==> Valid() && n < |nodes| && labels[n] == at
      ensures ok ==> index0 <= index && index + nb == index0 + nb0 && Cursor(at, k + 1, lo, index, index0 + nb0)
      ensures ok ==> Kept(t1, T(), lo, index, leaf)
      ensures ok ==> Written(T(), Entry(true, n), at, lo, index, lo, index0 + nb0, leaf)
      ensures ok ==> forall m | 0 <= m < old(|nodes|) && old(labels[m].level) > level :: nodes[m] == old(nodes[m])
      ensures ok ==> |nodes| <= |t1.nodes| + Spent(at, lo, index, index0 + nb0)
      decreases level, 1
    {
      var step := Step(level);
      ghost var hi := index0 + nb0;
      CursorInside(at, k, lo, index0, hi);
      if index0 % step == 0 && nb0 >= step {
        StoreLeaf(n, k, leaf, at, t1, lo, index0, hi);
        ok, index, nb := true, index0 + step, nb0 - step;
      } else {
        ChildOpen(t1, T(), n, k, at, lo, index0, hi, leaf);
        ghost var next, spent := CursorChild(at, k, lo, index0, hi);
        ok, index, nb := FillChild(n, k, index0, nb0, leaf, level, at, t1, lo, next, |t1.nodes| + spent);
      }
    }

    /** The turn that stores a leaf. */
    method StoreLeaf(n: nat, k: nat, leaf: nat, ghost at: Label,
                     ghost t1: Tree, ghost lo: nat, ghost index: nat, ghost hi: nat)
      requires Valid() && n < |nodes| && labels[n] == at && n != NIL && k < 1024
      requires Kept(t1, T(), lo, index, leaf) && Written(T(), Entry(true, n), at, lo, index, lo, hi, leaf)
      requires index == Unshift(at.prefix * 1024 + k, at.level)
      requires lo <= index && index + Step(at.level) <= hi
      modifies this`nodes
      ensures Valid() && |nodes| == old(|nodes|)
      ensures Kept(t1, T(), lo, index + Step(at.level), leaf)
      ensures Written(T(), Entry(true, n), at, lo, index + Step(at.level), lo, hi, leaf)
      ensures forall m | 0 <= m < |nodes| && labels[m].level > at.level :: nodes[m] == old(nodes[m])
    {
      ghost var t := T();
      LeafTurn(t, n, k, at, lo, index, hi, leaf);
      nodes := nodes[n := nodes[n][k := Entry(false, leaf)]];
      assert T() == Put(t, n, k, Entry(false, leaf));
      Advance(t1, t, T(), n, at, lo, index, index + Step(at.level), hi, leaf);
    }

    /** The turn that recurses. */
    method FillChild(n: nat, k: nat, index0: nat, nb0: nat, leaf: nat, level: nat,
                     ghost at: Label, ghost t1: Tree, ghost lo: nat, ghost next: nat, ghost most: nat)
      returns (ok: bool, index: nat, nb: nat)
      requires Valid() && level > 0 && at.level == level && n < |nodes| && labels[n] == at && n != NIL
      requires Partial(at, k, lo, index0, index0 + nb0)
      requires Kept(t1, T(), lo, index0, leaf)
      requires Written(T(), Entry(true, n), at, lo, index0, lo, index0 + nb0, leaf)
      requires nodes[n][k].skip && EntryOk(nodes[n][k], level, at.prefix * 1024 + k, labels)
      requires Open(T(), nodes[n][k], Label(level - 1, at.prefix * 1024 + k), index0, index0, index0 + nb0)
      requires |nodes| + Need(Label(level - 1, at.prefix * 1024 + k), index0, index0 + nb0) <= most <= nodesAlloc
      requires next == Reached(Label(level - 1, at.prefix * 1024 + k), index0 + nb0)
      modifies this`root, this`nodes, this`labels
      ensures old(|nodes|) <= |nodes| <= most && (!ok ==> |nodes| == NIL < most)
      ensures root == old(root)
      ensures ok ==> Valid() && n < |nodes| && labels[n] == at
      ensures ok ==> index + nb == index0 + nb0
      ensures ok ==> index0 <= index == next
      ensures ok ==> Kept(t1, T(), lo, index, leaf)
      ensures ok ==> Written(T(), Entry(true, n), at, lo, index, lo, index0 + nb0, leaf)
      ensures ok ==> forall m | 0 <= m < old(|nodes|) && old(labels[m].level) > level :: nodes[m] == old(nodes[m])
      decreases level, 0
    {
      ok, index, nb := SetLevel(Slot(n, k), index0, nb0, leaf, level - 1, Label(level - 1, at.prefix * 1024 + k));
      if ok {
        ChildTurn(T(), n, k, at, lo, index0, index, index0 + nb0, leaf);
        Advance(t1, old(T()), T(), n, at, lo, index0, index, index0 + nb0, leaf);
      }
    }

    /** phys_page_set: the flat map with [index, index + nb) overwritten. One call allocates at most
        2 * P_L2_LEVELS - 1 nodes, fewer than it reserves, and it aborts only for want of node numbers. */
    method Set(index: nat, nb: nat, leaf: nat) returns (ok: bool)
      requires Valid() && index < Step(levels) && index + nb <= Step(levels)
      requires forall p :: index <= p < index + nb ==> Fits(Pages()[p], p, index, index + nb)
      modifies this`root, this`nodes, this`labels, this`nodesAlloc
      ensures old(|nodes|) <= |nodes| <= old(|nodes|) + 2 * levels - 1
      ensures old(|nodes|) + 2 * levels - 1 <= NIL ==> ok
      ensures ok ==> Valid()
      ensures ok ==> Pages() == Fill(old(Pages()), index, nb, leaf, levels - 1)
    {
      ghost var at, t0, e0 := Label(levels - 1, 0), T(), root;
      assert View(t0, e0, levels) == Pages();
      ViewOpen(t0, e0, levels, at, index, index + nb);
      Reserve(3 * levels);
      var i, n;
      ok, i, n := SetLevel(Root, index, nb, leaf, levels - 1, at);
      if ok {
        assert i == index + nb by { UnshiftAdd(0, 0, levels); }
        ViewFilled(t0, e0, T(), root, levels, at, index, nb, leaf);
      }
    }
  }

  // ---- Whole runs ----------------------------------------------------------------------------

  datatype Op = Op(index: nat, nb: nat, leaf: nat)

  /** The first n calls of a run on the flat map */
  function Replay(pages: seq<Found>, ops: seq<Op>, n: nat, top: nat): (r: seq<Found>)
    requires n <= |ops|
    ensures |r| == |pages|
  {
    if n == 0 then pages
    else
      var op := ops[n - 1];
      Fill(Replay(pages, ops, n - 1, top), op.index, op.nb, op.leaf, top)
  }

  /** Every call of the run stays in the address space and enters no leaf above level 0. */
  predicate RunFits(pages: seq<Found>, ops: seq<Op>, top: nat) {
    forall i :: 0 <= i < |ops| ==>
      var op := ops[i];
      && op.index < |pages| && op.index + op.nb <= |pages|
      && forall p :: op.index <= p < op.index + op.nb ==>
           Fits(Replay(pages, ops, i, top)[p], p, op.index, op.index + op.nb)
  }

  /** The leaf of the last of n calls whose range holds p */
  function LastLeaf(ops: seq<Op>, n: nat, p: nat): nat
    requires n <= |ops|
  {
    if n == 0 then UNASSIGNED
    else
      var op := ops[n - 1];
      if op.index <= p < op.index + op.nb then op.leaf else LastLeaf(ops, n - 1, p)
  }

  lemma {:induction false} ReplayIsLastLeaf(pages: seq<Found>, ops: seq<Op>, n: nat, top: nat, p: nat)
    requires p < |pages| && pages[p].ptr == UNASSIGNED && n <= |ops|
    ensures Replay(pages, ops, n, top)[p].ptr == LastLeaf(ops, n, p)
  {
    if n > 0 {
      ReplayIsLastLeaf(pages, ops, n - 1, top, p);
    }
  }

  function Unmapped(levels: nat): seq<Found> { seq(Step(levels), _ => Found(UNASSIGNED, 0)) }

  /** Any run of phys_page_set calls from the empty map: phys_page_find answers, for every page, with
      the section last written over it, or with the unassigned one. */
  method Run(levels: nat, ops: seq<Op>) returns (ok: bool, map_: PhysPageMap)
    requires levels > 0
    requires RunFits(Unmapped(levels), ops, levels - 1)
    ensures fresh(map_)
    ensures !ok ==> |ops| * (2 * levels - 1) > NIL
    ensures ok ==> map_.Valid() && map_.levels == levels
    ensures ok ==> forall p: nat :: p < Step(levels) ==> map_.Pages()[p].ptr == LastLeaf(ops, |ops|, p)
  {
    map_ := new PhysPageMap(levels);
    ok := true;
    ghost var pages, used := map_.Pages(), 0;
    assert pages == Unmapped(levels);
    for i := 0 to |ops|
      invariant fresh(map_) && map_.Valid() && map_.levels == levels
      invariant map_.Pages() == Replay(pages, ops, i, levels - 1)
      invariant |map_.nodes| <= used == i * (2 * levels - 1)
    {
      ok := map_.Set(ops[i].index, ops[i].nb, ops[i].leaf);
      OneMore(i, |ops|, 2 * levels - 1);
      used := used + (2 * levels - 1);
      if !ok {
        return;
      }
    }
    forall p: nat | p < Step(levels)
      ensures map_.Pages()[p].ptr == LastLeaf(ops, |ops|, p)
    {
      ReplayIsLastLeaf(pages, ops, |ops|, levels - 1, p);
    }
  }

  lemma OneMore(i: nat, n: nat, k: nat)
    requires i < n
    ensures i * k + k == (i + 1) * k <= n * k
  {
    MulMonotone(i + 1, n, k);
  }
}
