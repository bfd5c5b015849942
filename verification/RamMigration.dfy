/** The sending side of live RAM migration in arch_init.c: the dirty bitmap and its counter, the
    round-robin scan of `ram_save_block` with its bulk-stage shortcut, and whole migrations. */
module RamMigration {
  import opened Bytes
  import opened MigrationStream
  import opened Options

  // ---- Counting bits --------------------------------------------------------------------------------

  function Ones(bits: seq<bool>): nat {
    if bits == [] then 0 else Ones(bits[..|bits| - 1]) + if bits[|bits| - 1] then 1 else 0
  }

  lemma {:induction false} OnesUpdate(bits: seq<bool>, i: nat, v: bool)
    requires i < |bits|
    ensures Ones(bits[i := v]) + (if bits[i] then 1 else 0) == Ones(bits) + (if v then 1 else 0)
  {
    var n := |bits| - 1;
    if i == n {
      assert bits[i := v][..n] == bits[..n];
    } else {
      assert bits[i := v][..n] == bits[..n][i := v];
      OnesUpdate(bits[..n], i, v);
    }
  }

  lemma {:induction false} OnesOfFull(bits: seq<bool>)
    requires forall i :: 0 <= i < |bits| ==> bits[i]
    ensures Ones(bits) == |bits|
  {
    if bits != [] { OnesOfFull(bits[..|bits| - 1]); }
  }

  // ---- Pages of blocks -----------------------------------------------------------------------------

  /** p is a page of some RAM block. */
  ghost predicate InRam(blocks: seq<Block>, p: nat) {
    exists b :: 0 <= b < |blocks| && blocks[b].base <= p < blocks[b].base + blocks[b].pages
  }

  /** Bits [lo, hi) are clear, or set. */
  ghost predicate ClearIn(bits: seq<bool>, lo: int, hi: int) {
    forall q :: lo <= q < hi && 0 <= q < |bits| ==> !bits[q]
  }

  ghost predicate SetIn(bits: seq<bool>, lo: int, hi: int) {
    forall q :: lo <= q < hi && 0 <= q < |bits| ==> bits[q]
  }

  ghost predicate BlockClear(bits: seq<bool>, b: Block) { ClearIn(bits, b.base, b.base + b.pages) }

  ghost predicate BlockSet(bits: seq<bool>, b: Block) { SetIn(bits, b.base, b.base + b.pages) }

  /** What the bulk stage relies on: every page ahead of the cursor is still marked. The cursor is the
      block seen last, if any, and the page the scan stopped at there. */
  ghost predicate AheadSet(blocks: seq<Block>, bits: seq<bool>, seen: Option<nat>, offset: nat) {
    match seen
    case None => forall b {:trigger BlockSet(bits, blocks[b])} :: 0 <= b < |blocks| ==> BlockSet(bits, blocks[b])
    case Some(s) =>
      && s < |blocks| && offset < blocks[s].pages
      && SetIn(bits, blocks[s].base + offset + 1, blocks[s].base + blocks[s].pages)
      && forall b {:trigger BlockSet(bits, blocks[b])} :: s < b < |blocks| ==> BlockSet(bits, blocks[b])
  }

  /** Unmarking the page that the bulk scan has reached keeps everything beyond it marked. */
  lemma AheadAfterSend(blocks: seq<Block>, bits: seq<bool>, seen: Option<nat>, offset: nat, block: nat, next: nat,
                       total: nat)
    requires Layout(blocks, total) && |bits| == total && AheadSet(blocks, bits, seen, offset)
    requires block < |blocks| && next < blocks[block].pages
    requires seen == None ==> block == 0
    requires seen.Some? ==> block > seen.value || (block == seen.value && offset <= next)
    ensures AheadSet(blocks, bits[blocks[block].base + next := false], Some(block), next)
  {
    var bits', q := bits[blocks[block].base + next := false], blocks[block].base + next;
    if seen == None || block > seen.value {
      assert BlockSet(bits, blocks[block]);
    }
    forall b | block < b < |blocks|
      ensures BlockSet(bits', blocks[b])
    {
      assert BlockSet(bits, blocks[b]) && Apart(blocks[block], blocks[b]);
    }
  }

  lemma AheadMonotone(blocks: seq<Block>, bits: seq<bool>, bits': seq<bool>, seen: Option<nat>, offset: nat)
    requires AheadSet(blocks, bits, seen, offset) && |bits| == |bits'|
    requires forall p :: 0 <= p < |bits| && bits[p] ==> bits'[p]
    ensures AheadSet(blocks, bits', seen, offset)
  {
    forall b | 0 <= b < |blocks| && (seen.None? || seen.value < b)
      ensures BlockSet(bits', blocks[b])
    {
      assert BlockSet(bits, blocks[b]);
    }
  }

  /** The one state in which ram_save_block drops a marked page: the bulk scan stands on the last page of
      the last block, not the first page there, and that page alone is marked (again). */
  ghost function Dropped(blocks: seq<Block>, bits: seq<bool>, seen: Option<nat>, offset: nat, bulk: bool): Option<nat> {
    if bulk && seen.Some? && seen.value == |blocks| - 1 >= 0 && 0 < offset == blocks[seen.value].pages - 1
       && blocks[seen.value].base + offset < |bits| && bits[blocks[seen.value].base + offset]
       && forall p: nat :: InRam(blocks, p) && p < |bits| && p != blocks[seen.value].base + offset ==> !bits[p]
    then Some(blocks[seen.value].base + offset)
    else None
  }

  /** What migration_bitmap_find_and_reset_dirty answers for block b from page `start` on. */
  ghost predicate Finds(bits: seq<bool>, b: Block, start: nat, bulk: bool, next: nat) {
    && start <= next <= b.pages && b.base + b.pages <= |bits|
    && (if bulk && start > 0 then next == start + 1 else ClearIn(bits, b.base + start, b.base + next))
    && (next < b.pages ==> bits[b.base + next])
  }

  /** The scan of ram_save_block: where it is, and whether it has wrapped around or not yet moved. */
  datatype Scan = Scan(block: nat, off: nat, complete: bool, first: bool)

  /** What the scan has found clear on its way from the cursor (seen, offset), in the bulk stage or not.
      The bulk stage steps over the cursor's own page. */
  ghost predicate Scanned(blocks: seq<Block>, bits: seq<bool>, seen: Option<nat>, offset: nat, bulk: bool, at: Scan) {
    && at.block < |blocks| && at.off <= blocks[at.block].pages
    && (bulk ==> AheadSet(blocks, bits, seen, offset))
    && (if at.first then !at.complete && at.off == offset && at.block == (if seen.None? then 0 else seen.value)
        else
          && at.off == 0 && seen.Some? && seen.value < |blocks|
          && (if at.complete then at.block <= seen.value else seen.value < at.block)
          && ClearIn(bits, blocks[seen.value].base + (if bulk && offset > 0 then offset + 1 else offset),
                     blocks[seen.value].base + blocks[seen.value].pages)
          && (forall b {:trigger BlockClear(bits, blocks[b])} ::
                seen.value < b < |blocks| && (at.complete || b < at.block) ==> BlockClear(bits, blocks[b]))
          && (forall b {:trigger BlockClear(bits, blocks[b])} :: 0 <= b < at.block && at.complete ==>
             BlockClear(bits, blocks[b]))
          && (at.complete && bulk ==> seen.value == |blocks| - 1 && offset + 1 == blocks[seen.value].pages))
  }

  function Moved(blocks: seq<Block>, at: Scan): Scan {
    if at.block + 1 == |blocks| then Scan(0, 0, true, false) else Scan(at.block + 1, 0, at.complete, false)
  }

  /** A block without a page to send is left behind. */
  lemma ScanMoves(blocks: seq<Block>, bits: seq<bool>, seen: Option<nat>, offset: nat, bulk: bool, at: Scan,
                  total: nat)
    requires Layout(blocks, total) && |bits| == total && (!bulk ==> seen.Some?) && (seen.None? ==> offset == 0)
    requires Scanned(blocks, bits, seen, offset, bulk, at)
    requires Finds(bits, blocks[at.block], at.off, bulk && !at.complete, blocks[at.block].pages)
    requires !(at.complete && seen == Some(at.block))
    ensures Scanned(blocks, bits, seen, offset, bulk, Moved(blocks, at))
    ensures at.complete ==> at.block + 1 < |blocks|
  {
    var b := blocks[at.block];
    assert BlockSet(bits, b) ==> bits[b.base];
    assert b.pages > 1 && SetIn(bits, b.base + 1, b.base + b.pages) ==> bits[b.base + 1];
    if !at.first || at.off == 0 {
      assert BlockClear(bits, b);
    }
  }

  /** Where the bulk stage goes from its cursor: to the same page again, if that is the first of its block and marked
      again, or else to the next page, until there is none. */
  function BulkNext(blocks: seq<Block>, bits: seq<bool>, seen: Option<nat>, offset: nat): Option<(nat, nat)> {
    if seen.None? then Some((0, 0))
    else if seen.value >= |blocks| then None
    else
      var b := blocks[seen.value];
      if offset == 0 && b.base < |bits| && bits[b.base] then Some((seen.value, 0))
      else if offset + 1 < b.pages then Some((seen.value, offset + 1))
      else if seen.value + 1 < |blocks| then Some((seen.value + 1, 0))
      else None
  }

  /** The bulk stage lasts as long as there is a next page, and takes that one. */
  ghost predicate BulkOrder(blocks: seq<Block>, bits: seq<bool>, seen: Option<nat>, offset: nat, bulk: bool, block: nat,
                            off: nat, bulk': bool)
  {
    var next := BulkNext(blocks, bits, seen, offset);
    bulk ==> if next.Some? then bulk' && next == Some((block, off)) else !bulk'
  }

  lemma BulkFinds(blocks: seq<Block>, bits: seq<bool>, seen: Option<nat>, offset: nat, at: Scan, next: nat, total: nat)
    requires Layout(blocks, total) && |bits| == total && (seen.None? ==> offset == 0)
    requires Scanned(blocks, bits, seen, offset, true, at) && !at.complete
    requires Finds(bits, blocks[at.block], at.off, true, next) && next < blocks[at.block].pages
    ensures BulkNext(blocks, bits, seen, offset) == Some((at.block, next))
  {
    var b := blocks[at.block];
    if at.first {
      if seen.None? { assert BlockSet(bits, b) && bits[b.base]; }
      if offset == 0 && next > 0 { assert bits[b.base + 1]; }
    } else {
      var c := blocks[seen.value];
      if offset + 1 < c.pages {
        IsClear(bits, c.base + (if offset > 0 then offset + 1 else offset), c.base + c.pages, c.base + offset + 1);
        assert false;
      }
      assert offset == 0 ==> !bits[c.base];
      if seen.value + 1 < at.block {
        assert BlockSet(bits, blocks[seen.value + 1]);
        FirstClear(bits, blocks[seen.value + 1]);
        assert false;
      }
      assert BlockSet(bits, b) && bits[b.base];
    }
  }

  lemma IsClear(bits: seq<bool>, lo: int, hi: int, q: int)
    requires ClearIn(bits, lo, hi) && lo <= q < hi && 0 <= q < |bits|
    ensures !bits[q]
  {
  }

  lemma FirstClear(bits: seq<bool>, b: Block)
    requires BlockClear(bits, b) && b.pages > 0 && b.base < |bits|
    ensures !bits[b.base]
  {
  }

  lemma BulkEnds(blocks: seq<Block>, bits: seq<bool>, seen: Option<nat>, offset: nat, at: Scan, total: nat)
    requires Layout(blocks, total) && |bits| == total && Scanned(blocks, bits, seen, offset, true, at) && at.complete
    ensures BulkNext(blocks, bits, seen, offset) == None
  {
    assert offset == 0 ==> !bits[blocks[seen.value].base];
  }

  /** Page q of block b lies at or behind the cursor, so that the scan comes to it before it wraps around. */
  predicate Behind(seen: Option<nat>, start: nat, b: nat, q: nat) {
    seen.None? || seen.value < b || (seen.value == b && start <= q)
  }

  /** Going round from the cursor, the scan comes to page q of block b before it comes to page q' of block b'. */
  predicate Sooner(seen: Option<nat>, start: nat, b: nat, q: nat, b': nat, q': nat) {
    if Behind(seen, start, b, q) != Behind(seen, start, b', q') then Behind(seen, start, b, q)
    else b < b' || (b == b' && q < q')
  }

  /** Where the scan starts in the cursor's block: on its page, or in the bulk stage on the one after it */
  function StartAt(offset: nat, bulk: bool): nat { if bulk && offset > 0 then offset + 1 else offset }

  /** Of the marked pages, this is the one that the scan comes to first. */
  ghost predicate ComesFirst(blocks: seq<Block>, bits: seq<bool>, seen: Option<nat>, start: nat, block: nat, off: nat) {
    forall b: nat, q: nat {:trigger Sooner(seen, start, b, q, block, off)}
      | b < |blocks| && q < blocks[b].pages && blocks[b].base + q < |bits| && Sooner(seen, start, b, q, block, off) ::
      !bits[blocks[b].base + q]
  }

  lemma FindsFirst(blocks: seq<Block>, bits: seq<bool>, seen: Option<nat>, offset: nat, bulk: bool, at: Scan, next: nat,
                   total: nat)
    requires Layout(blocks, total) && |bits| == total && (seen.None? ==> offset == 0)
    requires Scanned(blocks, bits, seen, offset, bulk, at)
    requires Finds(bits, blocks[at.block], at.off, bulk && !at.complete, next) && next < blocks[at.block].pages
    requires !(at.complete && seen == Some(at.block) && offset <= next)
    ensures ComesFirst(blocks, bits, seen, StartAt(offset, bulk), at.block, next)
  {
    forall b: nat, q: nat | b < |blocks| && q < blocks[b].pages && blocks[b].base + q < |bits|
                            && Sooner(seen, StartAt(offset, bulk), b, q, at.block, next)
      ensures !bits[blocks[b].base + q]
    {
      if b != at.block && seen != Some(b) { assert BlockClear(bits, blocks[b]); }
    }
  }

  /** What the scan hands back: a marked page, now unmarked, or the cursor again. Without a page, either
      no page of RAM was marked, or one has been dropped. */
  datatype Result = Result(found: bool, block: nat, off: nat, bulk: bool)

  ghost predicate SearchResult(blocks: seq<Block>, bits: seq<bool>, seen: Option<nat>, offset: nat, bulk: bool,
                               r: Result, bits': seq<bool>, total: nat)
  {
    && r.block < |blocks| && r.off <= blocks[r.block].pages && |bits| == |bits'| == total
    && blocks[r.block].base + blocks[r.block].pages <= total && (r.bulk ==> bulk)
    && var p := blocks[r.block].base + r.off;
    && bits' == (if r.off < blocks[r.block].pages then bits[p := false] else bits)
    && (r.off < blocks[r.block].pages ==> bits[p])
    && (if r.found then
          && r.off < blocks[r.block].pages && Dropped(blocks, bits, seen, offset, bulk) == None
          && (r.bulk ==> AheadSet(blocks, bits', Some(r.block), r.off))
          && BulkOrder(blocks, bits, seen, offset, bulk, r.block, r.off, r.bulk)
          && ComesFirst(blocks, bits, seen, StartAt(offset, bulk), r.block, r.off)
        else
          && !r.bulk && seen == Some(r.block) && (bulk ==> BulkNext(blocks, bits, seen, offset) == None)
          && Dropped(blocks, bits, seen, offset, bulk) == (if r.off < blocks[r.block].pages then Some(p) else None)
          && (r.off == blocks[r.block].pages ==> forall q: nat :: InRam(blocks, q) && q < total ==> !bits[q]))
  }

  /** A scan that comes round to its cursor and finds nothing before it has seen every page of RAM; it
      can have unmarked only the cursor's own page, in the bulk stage. */
  lemma ScanEnds(blocks: seq<Block>, bits: seq<bool>, seen: Option<nat>, offset: nat, bulk: bool, at: Scan, next: nat,
                 bits': seq<bool>, total: nat)
    requires Layout(blocks, total) && |bits| == total
    requires Scanned(blocks, bits, seen, offset, bulk, at) && at.complete && seen == Some(at.block)
    requires Finds(bits, blocks[at.block], at.off, false, next) && offset <= next
    requires bits' == if next < blocks[at.block].pages then bits[blocks[at.block].base + next := false] else bits
    ensures SearchResult(blocks, bits, seen, offset, bulk, Result(false, at.block, next, false), bits', total)
  {
    if bulk { BulkEnds(blocks, bits, seen, offset, at, total); }
    var b := blocks[at.block];
    forall p: nat | InRam(blocks, p) && p < total && p != b.base + next
      ensures !bits[p]
    {
      var i :| 0 <= i < |blocks| && blocks[i].base <= p < blocks[i].base + blocks[i].pages;
      if i != at.block { assert BlockClear(bits, blocks[i]); }
    }
    if next == b.pages {
      forall p: nat | InRam(blocks, p) && p < total
        ensures !bits[p]
      {
        var i :| 0 <= i < |blocks| && blocks[i].base <= p < blocks[i].base + blocks[i].pages;
        if i != at.block { assert BlockClear(bits, blocks[i]); }
      }
    }
  }

  /** A page that the scan finds before it comes round is not the one that could be dropped. */
  lemma ScanFinds(blocks: seq<Block>, bits: seq<bool>, seen: Option<nat>, offset: nat, bulk: bool, at: Scan, next: nat,
                  bits': seq<bool>, total: nat)
    requires Layout(blocks, total) && |bits| == total && (seen.None? ==> offset == 0)
    requires Scanned(blocks, bits, seen, offset, bulk, at)
    requires Finds(bits, blocks[at.block], at.off, bulk && !at.complete, next) && next < blocks[at.block].pages
    requires !(at.complete && seen == Some(at.block) && offset <= next)
    requires bits' == bits[blocks[at.block].base + next := false]
    ensures SearchResult(blocks, bits, seen, offset, bulk, Result(true, at.block, next, bulk && !at.complete), bits',
                         total)
  {
    assert InRam(blocks, blocks[at.block].base + next);
    FindsFirst(blocks, bits, seen, offset, bulk, at, next, total);
    if seen.Some? && at.block < seen.value { assert Apart(blocks[at.block], blocks[seen.value]); }
    if bulk && !at.complete {
      AheadAfterSend(blocks, bits, seen, offset, at.block, next, total);
      BulkFinds(blocks, bits, seen, offset, at, next, total);
    } else if bulk {
      BulkEnds(blocks, bits, seen, offset, at, total);
    }
  }

  /** In the bulk stage the scan may step to the next page without looking. */
  lemma ScanAhead(blocks: seq<Block>, bits: seq<bool>, seen: Option<nat>, offset: nat, at: Scan)
    requires Scanned(blocks, bits, seen, offset, true, at) && !at.complete && at.off > 0 && (seen.None? ==> offset == 0)
    ensures at.off < blocks[at.block].pages
    ensures SetIn(bits, blocks[at.block].base + at.off + 1, blocks[at.block].base + blocks[at.block].pages)
  {
  }

  /** Every page of RAM but a lost one is the same on both sides, or marked; a lost one is the last page
      of the last block, and not its only page. */
  ghost predicate Agree(blocks: seq<Block>, mem: seq<Page>, log: seq<bool>, dest: seq<Page>, bits: seq<bool>,
                        lost: Option<nat>)
    requires |mem| == |log| == |dest| == |bits|
  {
    && (forall p: nat :: InRam(blocks, p) && p < |mem| && lost != Some(p) ==> dest[p] == mem[p] || log[p] || bits[p])
    && (lost.Some? ==> |blocks| > 0 && blocks[|blocks| - 1].pages > 1 && lost.value == LastPage(blocks)
                       && lost.value < |mem| && !log[lost.value] && !bits[lost.value])
  }

  /** The last page of the last block */
  function LastPage(blocks: seq<Block>): nat {
    if blocks != [] && blocks[|blocks| - 1].pages > 0 then blocks[|blocks| - 1].base + blocks[|blocks| - 1].pages - 1
        else 0
  }

  /** A page whose mark has been dropped is lost, unless the log still has it. */
  function NowLost(dropped: Option<nat>, log: seq<bool>, lost: Option<nat>): Option<nat> {
    if dropped.Some? && dropped.value < |log| && !log[dropped.value] then dropped else lost
  }

  /** What the result of the scan means for both sides: sending the page that it found keeps them in agreement, and so
      does its end, but for a page that it drops. */
  ghost predicate SearchOk(blocks: seq<Block>, bits: seq<bool>, seen: Option<nat>, offset: nat, bulk: bool, r: Result,
                           bits': seq<bool>, mem: seq<Page>, log: seq<bool>, dest: seq<Page>, lost: Option<nat>)
    requires |mem| == |log| == |dest| == |bits| == |bits'|
  {
    var dropped := Dropped(blocks, bits, seen, offset, bulk);
    && r.block < |blocks| && r.off <= blocks[r.block].pages && blocks[r.block].base + blocks[r.block].pages <= |mem|
    && (r.bulk ==> bulk)
    && (if r.found then
          && var p := blocks[r.block].base + r.off;
          && r.off < blocks[r.block].pages && bits[p] && bits' == bits[p := false] && dropped.None?
          && (r.bulk ==> AheadSet(blocks, bits', Some(r.block), r.off))
          && BulkOrder(blocks, bits, seen, offset, bulk, r.block, r.off, r.bulk)
          && ComesFirst(blocks, bits, seen, StartAt(offset, bulk), r.block, r.off)
          && Agree(blocks, mem, log, dest[p := mem[p]], bits', lost)
        else
          && !r.bulk && NoneLeft(blocks, bits') && (dropped.Some? ==> dropped.value < |bits| && bits[dropped.value])
          && bits' == (if dropped.None? then bits else bits[dropped.value := false])
          && (bulk ==> BulkNext(blocks, bits, seen, offset) == None)
          && Agree(blocks, mem, log, dest, bits', NowLost(dropped, log, lost)))
  }

  /** No page of RAM is marked. */
  ghost predicate NoneLeft(blocks: seq<Block>, bits: seq<bool>) {
    forall p: nat :: InRam(blocks, p) && p < |bits| ==> !bits[p]
  }

  lemma AgreeAfterSearch(blocks: seq<Block>, bits: seq<bool>, seen: Option<nat>, offset: nat, bulk: bool, r: Result,
                         bits': seq<bool>, mem: seq<Page>, log: seq<bool>, dest: seq<Page>, lost: Option<nat>)
    requires SearchResult(blocks, bits, seen, offset, bulk, r, bits', |mem|)
    requires |mem| == |log| == |dest| && Agree(blocks, mem, log, dest, bits, lost) && (bulk ==> lost == None)
    ensures SearchOk(blocks, bits, seen, offset, bulk, r, bits', mem, log, dest, lost)
  {
  }

  lemma FewerOnes(blocks: seq<Block>, bits: seq<bool>, seen: Option<nat>, offset: nat, bulk: bool, r: Result,
                  bits': seq<bool>, total: nat)
    requires SearchResult(blocks, bits, seen, offset, bulk, r, bits', total)
    ensures r.found ==> Ones(bits') < Ones(bits)
  {
    if r.found { OnesUpdate(bits, blocks[r.block].base + r.off, false); }
  }

  /** `section` holds the pages ms. They take the last block sent from `last0` to `last`, and the receiver's
      memory from `dest0` to `dest`. */
  ghost predicate Holds(blocks: seq<Block>, pageSize: nat, section: seq<Byte>, ms: seq<Msg>, last0: Option<nat>,
                        last: Option<nat>,
                        dest0: seq<Page>, dest: seq<Page>)
  {
    && AllOk(blocks, pageSize, ms)
    && section == EncodeAll(blocks, ms, last0, pageSize)
    && last == LastBlock(ms, last0)
    && dest == Store(blocks, dest0, ms)
  }

  lemma OneMore(blocks: seq<Block>, pageSize: nat, section: seq<Byte>, ms: seq<Msg>, m: Msg, last0: Option<nat>,
                last: Option<nat>,
                dest0: seq<Page>, dest: seq<Page>) returns (more: seq<Msg>)
    requires Holds(blocks, pageSize, section, ms, last0, last, dest0, dest)
    requires MsgOk(blocks, pageSize, m) && blocks[m.block].base + m.offset < |dest|
    ensures Holds(blocks, pageSize, section + Encode(blocks, m, last, pageSize), more, last0, Some(m.block), dest0,
                  dest[blocks[m.block].base + m.offset := m.data]) && |more| == |ms| + 1
  {
    more := ms + [m];
    assert more[..|ms|] == ms;
  }

  /** The record m has been written for a marked page, which is no longer marked. */
  ghost predicate PageSent(blocks: seq<Block>, pageSize: nat, mem: seq<Page>, bits: seq<bool>, dest: seq<Page>,
                           last: Option<nat>,
                           bytes: seq<Byte>, m: Msg, bits': seq<bool>, dest': seq<Page>)
  {
    && MsgOk(blocks, pageSize, m) && bytes == Encode(blocks, m, last, pageSize) && bytes != []
    && var p := blocks[m.block].base + m.offset;
    && p < |bits| == |mem| == |dest| && bits[p] && bits' == bits[p := false]
    && m.data == mem[p] && dest' == dest[p := mem[p]]
  }

  lemma SentPage(blocks: seq<Block>, pageSize: nat, mem: seq<Page>, bits: seq<bool>, dest: seq<Page>, last: Option<nat>,
                 m: Msg)
    requires MsgOk(blocks, pageSize, m) && blocks[m.block].base + m.offset < |bits| == |mem| == |dest|
    requires var p := blocks[m.block].base + m.offset; bits[p] && m.data == mem[p]
    ensures var p := blocks[m.block].base + m.offset;
            PageSent(blocks, pageSize, mem, bits, dest, last, Encode(blocks, m, last, pageSize), m, bits[p := false],
                     dest[p := mem[p]])
  {
  }

  /** What may happen while a section is written: the next page, or a write by the guest. */
  datatype Moment = Save | GuestWrites(page: nat, data: Page)

  predicate MomentOk(total: nat, pageSize: nat, m: Moment) { m.GuestWrites? ==> m.page < total && |m.data| == pageSize }

  /** How many pages the first n moments ask for */
  function Saves(moments: seq<Moment>, n: nat): nat
    requires n <= |moments|
  {
    if n == 0 then 0 else Saves(moments, n - 1) + if moments[n - 1].Save? then 1 else 0
  }

  /** Guest memory after the guest's writes among the first n moments. */
  function Meanwhile(mem: seq<Page>, moments: seq<Moment>, n: nat): (r: seq<Page>)
    requires n <= |moments|
    ensures |r| == |mem|
  {
    if n == 0 then mem
    else
      var r, m := Meanwhile(mem, moments, n - 1), moments[n - 1];
      if m.GuestWrites? && m.page < |r| then r[m.page := m.data] else r
  }

  // ---- A reference for what gets lost --------------------------------------------------------------------

  /** The bulk stage reduced to its cursor: guest memory, the log, the marks, the cursor, whether the stage lasts,
      what the receiver has of the last page, and whether that page is lost. */
  datatype Ref = Ref(mem: seq<Page>, log: seq<bool>, bits: seq<bool>, seen: Option<nat>, offset: nat, bulk: bool,
                     copy: Page, lost: Option<nat>)
  {
    /** The next call of ram_save_block drops a mark. */
    ghost predicate Drops(blocks: seq<Block>) { Dropped(blocks, bits, seen, offset, bulk).Some? }
  }

  ghost function RefWrite(r: Ref, p: nat, data: Page): Ref {
    r.(mem := if p < |r.mem| then r.mem[p := data] else r.mem, log := if p < |r.log| then r.log[p := true] else r.log,
       lost := if r.lost == Some(p) then None else r.lost)
  }

  ghost function RefSync(blocks: seq<Block>, r: Ref): Ref {
    r.(bits := seq(|r.bits|, (i: nat) requires i < |r.bits| => r.bits[i]
      || (InRam(blocks, i) && i < |r.log| && r.log[i])),
       log := seq(|r.log|, (i: nat) requires i < |r.log| => r.log[i] && !InRam(blocks, i)))
  }

  /** The next page is sent; or there is none, the stage ends, and a mark on the cursor's page may be dropped.
      Afterwards nothing more can get lost. */
  ghost function RefSave(blocks: seq<Block>, r: Ref): Ref {
    if !r.bulk then r
    else
      match BulkNext(blocks, r.bits, r.seen, r.offset)
      case Some((b, o)) => RefSend(blocks, r, b, o)
      case None => r.(bulk := false, lost := NowLost(Dropped(blocks, r.bits, r.seen, r.offset, true), r.log, r.lost))
  }

  ghost function RefSend(blocks: seq<Block>, r: Ref, b: nat, o: nat): Ref {
    if b < |blocks| && blocks[b].base + o < |r.bits| && blocks[b].base + o < |r.mem| then
      var p := blocks[b].base + o;
      r.(bits := r.bits[p := false], seen := Some(b), offset := o, copy := if p == LastPage(blocks) then r.mem[p]
        else r.copy)
    else r
  }

  /** a is like the reference b: in the bulk stage they are the same; afterwards, only memory and what is lost matter.
      */
  ghost predicate Like(a: Ref, b: Ref) {
    && a.mem == b.mem && a.bulk == b.bulk && a.lost == b.lost && (a.lost.Some? ==> a.copy == b.copy)
    && (a.bulk ==> a == b)
  }

  lemma LikeGoesOn(blocks: seq<Block>, a: Ref, b: Ref, p: nat, data: Page)
    requires Like(a, b)
    ensures Like(RefSave(blocks, a), RefSave(blocks, b)) && Like(RefSync(blocks, a), RefSync(blocks, b))
    ensures Like(RefWrite(a, p, data), RefWrite(b, p, data))
  {
  }

  ghost function RefMoment(blocks: seq<Block>, r: Ref, m: Moment): Ref {
    match m
    case Save => RefSave(blocks, r)
    case GuestWrites(page, data) => RefWrite(r, page, data)
  }

  /** The reference after the first n moments of a section */
  ghost function RefMoments(blocks: seq<Block>, r: Ref, moments: seq<Moment>, n: nat): Ref
    requires n <= |moments|
  {
    if n == 0 then r else RefMoment(blocks, RefMoments(blocks, r, moments, n - 1), moments[n - 1])
  }

  /** The reference after ram_save_complete: only the first page of the last section can get lost. */
  ghost function RefEnd(blocks: seq<Block>, r: Ref): Ref { RefSave(blocks, RefSync(blocks, r)) }

  lemma LikeMoment(blocks: seq<Block>, v: Ref, u: Ref, w: Ref, moments: seq<Moment>, n: nat)
    requires n < |moments| && Like(u, RefMoments(blocks, v, moments, n)) && Like(w, RefMoment(blocks, u, moments[n]))
    ensures Like(w, RefMoments(blocks, v, moments, n + 1))
  {
    var r, m := RefMoments(blocks, v, moments, n), moments[n];
    LikeGoesOn(blocks, u, r, if m.Save? then 0 else m.page, if m.Save? then [] else m.data);
    LikeTrans(w, RefMoment(blocks, u, m), RefMoment(blocks, r, m));
  }

  lemma {:induction false} LikeMoments(blocks: seq<Block>, a: Ref, b: Ref, moments: seq<Moment>, n: nat)
    requires n <= |moments| && Like(a, b)
    ensures Like(RefMoments(blocks, a, moments, n), RefMoments(blocks, b, moments, n))
  {
    if n > 0 {
      LikeMoments(blocks, a, b, moments, n - 1);
      var m := moments[n - 1];
      LikeGoesOn(blocks, RefMoments(blocks, a, moments, n - 1), RefMoments(blocks, b, moments, n - 1),
                 if m.Save? then 0 else m.page, if m.Save? then [] else m.data);
    }
  }

  lemma LikeEnd(blocks: seq<Block>, a: Ref, b: Ref)
    requires Like(a, b)
    ensures Like(RefEnd(blocks, a), RefEnd(blocks, b))
  {
    LikeGoesOn(blocks, a, b, 0, []);
    LikeGoesOn(blocks, RefSync(blocks, a), RefSync(blocks, b), 0, []);
  }

  lemma {:induction false} RefMeanwhile(blocks: seq<Block>, r: Ref, moments: seq<Moment>, n: nat)
    requires n <= |moments|
    ensures RefMoments(blocks, r, moments, n).mem == Meanwhile(r.mem, moments, n)
  {
    if n > 0 { RefMeanwhile(blocks, r, moments, n - 1); }
  }

  /** The same is lost, and the receiver has the same of it. */
  ghost predicate SameLoss(a: Ref, b: Ref) { a.mem == b.mem && a.lost == b.lost && (a.lost.Some? ==> a.copy == b.copy) }

  /** A page that is lost stays so while pages are sent, and nothing more is lost outside the one state. */
  lemma LossKept(blocks: seq<Block>, u: Ref, w: Ref)
    requires Like(w, RefSave(blocks, u)) && !u.Drops(blocks)
    requires u.bulk ==> u.lost == None
    ensures SameLoss(w, u)
  {
  }

  /** The page that goes out is the reference's next one. */
  lemma SendLike(blocks: seq<Block>, pageSize: nat, v: Ref, dest: seq<Page>, last: Option<nat>, bytes: seq<Byte>,
                 m: Msg, w: Ref,
                 dest': seq<Page>)
    requires PageSent(blocks, pageSize, v.mem, v.bits, dest, last, bytes, m, w.bits, dest') && LastPage(blocks) < |dest|
    requires w.mem == v.mem && w.log == v.log && w.lost == v.lost && w.seen == Some(m.block) && w.offset == m.offset
    requires (w.bulk ==> v.bulk) && BulkOrder(blocks, v.bits, v.seen, v.offset, v.bulk, m.block, m.offset, w.bulk)
    requires v.copy == dest[LastPage(blocks)] && w.copy == dest'[LastPage(blocks)]
    requires Dropped(blocks, v.bits, v.seen, v.offset, v.bulk) == None && (v.bulk ==> v.lost == None)
    requires v.lost.Some? ==> v.lost.value == LastPage(blocks) < |v.bits| && !v.bits[v.lost.value]
    ensures Like(w, RefSave(blocks, v)) && Dropped(blocks, w.bits, w.seen, w.offset, w.bulk) == None
  {
  }

  lemma StopLike(blocks: seq<Block>, v: Ref, w: Ref)
    requires w.mem == v.mem && w.log == v.log && w.copy == v.copy && !w.bulk
    requires v.bulk ==> BulkNext(blocks, v.bits, v.seen, v.offset) == None
    requires w.lost == NowLost(Dropped(blocks, v.bits, v.seen, v.offset, v.bulk), v.log, v.lost)
    ensures Like(w, RefSave(blocks, v))
  {
  }

  lemma LikeTrans(a: Ref, b: Ref, c: Ref)
    requires Like(a, b) && Like(b, c)
    ensures Like(a, c)
  {
  }

  class RamSave {
    const blocks: seq<Block>
    const total: nat
    const pageSize: nat
    /** Guest memory and the dirty log of the memory core. */
    var mem: seq<Page>
    var log: seq<bool>
    /** migration_bitmap and migration_dirty_pages */
    const bitmap: array<bool>
    var dirtyPages: int
    /** last_seen_block, last_offset, last_sent_block and ram_bulk_stage */
    var seen: Option<nat>
    var offset: nat
    var sentBlock: Option<nat>
    var bulk: bool
    /** The receiver's memory once everything written so far has been loaded. */
    ghost var dest: seq<Page>
    /** A page whose mark has been dropped and that has not been written by the guest since its last sync. */
    ghost var lost: Option<nat>

    /** Sizes agree, and the counter counts the marked pages. */
    ghost predicate Sound()
      reads this, bitmap
    {
      && Layout(blocks, total)
      && |mem| == |log| == |dest| == bitmap.Length == total
      && (forall p :: 0 <= p < total ==> |mem[p]| == pageSize)
      && dirtyPages == Ones(bitmap[..])
      && (sentBlock.Some? ==> sentBlock.value < |blocks|)
    }

    ghost predicate Valid()
      reads this, bitmap
    {
      && Sound()
      && (seen.Some? ==> seen.value < |blocks| && offset <= blocks[seen.value].pages)
      && (!bulk ==> seen.Some?)
      && (seen.None? ==> offset == 0)
      && (bulk ==> AheadSet(blocks, bitmap[..], seen, offset))
    }

    /** Only the last page of the last block can be dropped, and only if that block has others. */
    ghost predicate LostIsLast()
      reads this
    {
      lost.Some? ==> |blocks| > 0 && blocks[|blocks| - 1].pages > 1 && lost.value == LastPage(blocks)
    }

    /** What the reference says about; it keeps of the receiver's memory only the last page. */
    ghost function View(): Ref
      reads this, bitmap
    {
      Ref(mem, log, bitmap[..], seen, offset, bulk, if LastPage(blocks) < |dest| then dest[LastPage(blocks)]
        else [], lost)
    }

    /** Every page of RAM is the same at the destination, or marked in the log or the bitmap. */
    ghost predicate Tracked()
      requires |mem| == |log| == |dest| == bitmap.Length == total
      reads this, bitmap
    {
      && Agree(blocks, mem, log, dest, bitmap[..], lost)
      && (bulk ==> lost == None)
    }

    /** ram_save_setup, but for the section that it writes */
    constructor (blocks: seq<Block>, total: nat, pageSize: nat, mem: seq<Page>, log: seq<bool>, ghost dest: seq<Page>)
      requires Layout(blocks, total) && |mem| == |log| == |dest| == total
      requires forall p :: 0 <= p < total ==> |mem[p]| == pageSize
      ensures Valid() && Tracked() && lost == None && fresh(bitmap)
      ensures this.blocks == blocks && this.total == total && this.pageSize == pageSize
      ensures this.mem == mem && this.log == log && this.dest == dest && sentBlock == None
      ensures bulk && seen == None && offset == 0 && forall p :: 0 <= p < total ==> bitmap[p]
    {
      this.blocks, this.total, this.pageSize := blocks, total, pageSize;
      this.mem, this.log, this.dest, this.lost := mem, log, dest, None;
      bitmap := new bool[total](_ => true);
      dirtyPages := total;
      seen, offset, sentBlock, bulk := None, 0, None, true;
      new;
      OnesOfFull(bitmap[..]);
    }

    /** The guest writes a page: its memory changes and the log notes it. */
    method GuestWrite(p: nat, data: Page)
      requires Valid() && Tracked() && p < total && |data| == pageSize
      modifies this`mem, this`log, this`lost
      ensures Valid() && Tracked() && mem == old(mem)[p := data] && log == old(log)[p := true]
      ensures lost == if old(lost) == Some(p) then None else old(lost)
      ensures View() == RefWrite(old(View()), p, data)
    {
      mem := mem[p := data];
      log := log[p := true];
      if lost == Some(p) {
        lost := None;
      }
    }

    /** migration_bitmap_set_dirty */
    method SetDirty(nr: nat) returns (was: bool)
      requires nr < bitmap.Length && dirtyPages == Ones(bitmap[..])
      modifies this`dirtyPages, bitmap
      ensures was == old(bitmap[nr]) && bitmap[..] == old(bitmap[..])[nr := true] && dirtyPages == Ones(bitmap[..])
    {
      was := bitmap[nr];
      ghost var bits := bitmap[..];
      OnesUpdate(bits, nr, true);
      bitmap[nr] := true;
      assert bitmap[..] == bits[nr := true];
      if !was {
        dirtyPages := dirtyPages + 1;
      }
    }

    /** The bitmap part of migration_bitmap_sync, for one block */
    method SyncBlock(b: nat)
      requires b < |blocks| && Layout(blocks, total) && |log| == bitmap.Length == total
               && dirtyPages == Ones(bitmap[..])
      modifies this`log, this`dirtyPages, bitmap
      ensures |log| == total && dirtyPages == Ones(bitmap[..])
      ensures forall p :: 0 <= p < total ==>
                (if blocks[b].base <= p < blocks[b].base + blocks[b].pages
                 then !log[p] && bitmap[p] == (old(bitmap[p]) || old(log[p]))
                 else log[p] == old(log[p]) && bitmap[p] == old(bitmap[p]))
    {
      var base := blocks[b].base;
      for addr := 0 to blocks[b].pages
        invariant |log| == total && dirtyPages == Ones(bitmap[..])
        invariant forall p :: 0 <= p < total ==>
                    (if base <= p < base + addr
                     then !log[p] && bitmap[p] == (old(bitmap[p]) || old(log[p]))
                     else log[p] == old(log[p]) && bitmap[p] == old(bitmap[p]))
      {
        if log[base + addr] {
          log := log[base + addr := false];
          ghost var bits := bitmap[..];
          var _ := SetDirty(base + addr);
          assert forall p :: 0 <= p < total ==> bitmap[p] == bits[base + addr := true][p];
        }
      }
    }

    /** Its loop over the blocks */
    method SyncBlocks()
      requires Layout(blocks, total) && |log| == bitmap.Length == total && dirtyPages == Ones(bitmap[..])
      modifies this`log, this`dirtyPages, bitmap
      ensures |log| == total && dirtyPages == Ones(bitmap[..])
      ensures forall p: nat :: p < total ==>
                if InRam(blocks, p) then !log[p] && bitmap[p] == (old(bitmap[p]) || old(log[p]))
                else log[p] == old(log[p]) && bitmap[p] == old(bitmap[p])
    {
      ghost var bits, log0 := bitmap[..], log;
      for b := 0 to |blocks|
        invariant |log| == total && dirtyPages == Ones(bitmap[..])
        invariant forall p :: 0 <= p < total ==> (log[p] || bitmap[p]) == (log0[p] || bits[p])
        invariant forall p :: 0 <= p < total ==> (bits[p] ==> bitmap[p]) && (log[p] ==> log0[p])
        invariant forall i, p :: 0 <= i < b && blocks[i].base <= p < blocks[i].base + blocks[i].pages ==> !log[p]
        invariant forall p: nat :: p < total && !InRam(blocks, p) ==> log[p] == log0[p] && bitmap[p] == bits[p]
      {
        SyncBlock(b);
      }
    }

    /** The bitmap part of migration_bitmap_sync: the log moves into the bitmap. */
    method Sync()
      requires Valid() && Tracked()
      modifies this`log, this`dirtyPages, bitmap
      ensures Valid() && Tracked()
      ensures forall p: nat :: InRam(blocks, p) && p < total ==> !log[p] && bitmap[p] == (old(bitmap[p]) || old(log[p]))
      ensures View() == RefSync(blocks, old(View()))
    {
      ghost var bits, r := bitmap[..], RefSync(blocks, View());
      SyncBlocks();
      assert log == r.log && bitmap[..] == r.bits;
      if bulk { AheadMonotone(blocks, bits, bitmap[..], seen, offset); }
    }

    /** migration_bitmap_find_and_reset_dirty: the next marked page of block b from `start` on, or in the
        bulk stage simply the next page; it is unmarked and the counter keeps up. */
    method FindAndReset(b: nat, start: nat) returns (next: nat)
      requires Layout(blocks, total) && bitmap.Length == total && dirtyPages == Ones(bitmap[..])
      requires b < |blocks| && start <= blocks[b].pages
      requires bulk && start > 0 ==>
                 start < blocks[b].pages
                   && SetIn(bitmap[..], blocks[b].base + start + 1, blocks[b].base + blocks[b].pages)
      modifies this`dirtyPages, bitmap
      ensures Finds(old(bitmap[..]), blocks[b], start, bulk, next)
      ensures bitmap[..] == if next < blocks[b].pages then old(bitmap[..])[blocks[b].base + next := false]
              else old(bitmap[..])
      ensures dirtyPages == Ones(bitmap[..])
    {
      var base, nr := blocks[b].base, blocks[b].base + start;
      var size := base + blocks[b].pages;
      var found;
      if bulk && nr > base {
        found := nr + 1;
      } else {
        found := FindNextBit(size, nr);
      }
      if found < size {
        OnesUpdate(bitmap[..], found, false);
        ghost var was := bitmap[..];
        bitmap[found] := false;
        assert bitmap[..] == was[found := false];
        dirtyPages := dirtyPages - 1;
      }
      next := found - base;
    }

    /** find_next_bit */
    method FindNextBit(size: nat, nr: nat) returns (next: nat)
      requires nr <= size <= bitmap.Length
      ensures nr <= next <= size && ClearIn(bitmap[..], nr, next) && (next < size ==> bitmap[next])
    {
      next := nr;
      while next < size && !bitmap[next]
        invariant nr <= next <= size && ClearIn(bitmap[..], nr, next)
      {
        next := next + 1;
      }
    }

    /** One turn of ram_save_block's loop: the scan stops with a result, or moves on to the next block. */
    method SearchTurn(at: Scan, ghost bits: seq<bool>, ghost bulk0: bool) returns (r: Option<Result>)
      requires Layout(blocks, total) && bitmap.Length == total && bitmap[..] == bits && dirtyPages == Ones(bits)
      requires (!bulk0 ==> seen.Some?) && (seen.None? ==> offset == 0)
      requires seen.Some? ==> seen.value < |blocks| && offset <= blocks[seen.value].pages
      requires Scanned(blocks, bits, seen, offset, bulk0, at) && bulk == (bulk0 && !at.complete)
      modifies this`dirtyPages, bitmap
      ensures dirtyPages == Ones(bitmap[..])
      ensures r.Some? ==>
              SearchResult(blocks, bits, seen, offset, bulk0, r.value, bitmap[..], total)
              && bulk == r.value.bulk
      ensures r.None? ==> bitmap[..] == bits && !(at.complete && seen == Some(at.block))
      ensures r.None? ==> Finds(bits, blocks[at.block], at.off, bulk, blocks[at.block].pages)
    {
      if bulk && at.off > 0 { ScanAhead(blocks, bits, seen, offset, at); }
      var off := FindAndReset(at.block, at.off);
      if at.complete && seen == Some(at.block) && off >= offset {
        ScanEnds(blocks, bits, seen, offset, bulk0, at, off, bitmap[..], total);
        r := Some(Result(false, at.block, off, bulk));
      } else if off < blocks[at.block].pages {
        ScanFinds(blocks, bits, seen, offset, bulk0, at, off, bitmap[..], total);
        r := Some(Result(true, at.block, off, bulk));
      } else {
        r := None;
      }
    }

    /** The scan of ram_save_block */
    method Search() returns (r: Result)
      requires Valid() && Tracked()
      modifies this`dirtyPages, this`bulk, bitmap
      ensures dirtyPages == Ones(bitmap[..]) && bulk == r.bulk && (bulk ==> old(bulk))
      ensures r.found ==> dirtyPages < old(dirtyPages)
      ensures SearchOk(blocks, old(bitmap[..]), seen, offset, old(bulk), r, bitmap[..], mem, log, dest, lost)
    {
      ghost var bits := bitmap[..];
      r := Scanning();
      FewerOnes(blocks, bits, seen, offset, old(bulk), r, bitmap[..], total);
      AgreeAfterSearch(blocks, bits, seen, offset, old(bulk), r, bitmap[..], mem, log, dest, lost);
    }

    /** Its loop */
    method Scanning() returns (r: Result)
      requires Valid()
      modifies this`dirtyPages, this`bulk, bitmap
      ensures dirtyPages == Ones(bitmap[..]) && bulk == r.bulk
      ensures SearchResult(blocks, old(bitmap[..]), seen, offset, old(bulk), r, bitmap[..], total)
    {
      ghost var bits := bitmap[..];
      var at := Scan(if seen.None? then 0 else seen.value, offset, false, true);
      while true
        modifies this`dirtyPages, this`bulk, bitmap
        invariant bitmap[..] == bits && dirtyPages == Ones(bits) && bulk == (old(bulk) && !at.complete)
        invariant Scanned(blocks, bits, seen, offset, old(bulk), at)
        decreases at.first, !at.complete, |blocks| - at.block
      {
        var stop := SearchTurn(at, bits, old(bulk));
        if stop.Some? {
          return stop.value;
        }
        ScanMoves(blocks, bits, seen, offset, old(bulk), at, total);
        if at.block + 1 == |blocks| {
          at := Scan(0, 0, true, false);
          bulk := false;
        } else {
          at := Scan(at.block + 1, 0, at.complete, false);
        }
      }
    }

    /** ram_save_block, with XBZRLE and RDMA off: writes one marked page and unmarks it, or writes nothing
        when no page of RAM is marked. It drops a page in exactly one state. */
    method SaveBlock() returns (bytes: seq<Byte>, ghost sent: Option<Msg>)
      requires Valid() && Tracked()
      modifies this`dirtyPages, this`seen, this`offset, this`sentBlock, this`bulk, this`dest, this`lost, bitmap
      ensures Valid() && Tracked() && (bulk ==> old(bulk)) && (sent.Some? ==> dirtyPages < old(dirtyPages))
      ensures sent.Some? ==>
                PageSent(blocks, pageSize, mem, old(bitmap[..]), old(dest), old(sentBlock), bytes, sent.value,
                  bitmap[..], dest)
      ensures sent.Some? ==> seen == sentBlock == Some(sent.value.block) && offset == sent.value.offset
      ensures sent.Some? ==>
                BulkOrder(blocks, old(bitmap[..]), old(seen), old(offset), old(bulk), sent.value.block,
                  sent.value.offset, bulk)
                && ComesFirst(blocks, old(bitmap[..]), old(seen), StartAt(old(offset), old(bulk)), sent.value.block,
                     sent.value.offset)
      ensures sent.None? ==> bytes == [] && sentBlock == old(sentBlock) && dest == old(dest)
      ensures sent.None? ==> !bulk && NoneLeft(blocks, bitmap[..])
      ensures sent.None? && old(bulk) ==> BulkNext(blocks, old(bitmap[..]), old(seen), old(offset)) == None
      ensures var dropped := old(Dropped(blocks, bitmap[..], seen, offset, bulk));
              && lost == NowLost(dropped, log, old(lost))
              && (dropped.Some? ==> sent.None? && old(bitmap[..])[dropped.value])
              && (sent.None? ==>
                    bitmap[..] == if dropped.None? then old(bitmap[..]) else old(bitmap[..])[dropped.value := false])
    {
      ghost var bits, dropped := bitmap[..], Dropped(blocks, bitmap[..], seen, offset, bulk);
      var r := Search();
      if r.found {
        ghost var m;
        bytes, m := Send(r, bits);
        sent := Some(m);
      } else {
        bytes, sent := [], None;
        Stop(r, dropped);
      }
    }

    /** The page that the scan found goes out, and the cursor moves to it. */
    method Send(r: Result, ghost bits: seq<bool>) returns (bytes: seq<Byte>, ghost m: Msg)
      requires Sound() && r.block < |blocks| && r.off < blocks[r.block].pages && |bits| == total
      requires bits[blocks[r.block].base + r.off] && bitmap[..] == bits[blocks[r.block].base + r.off := false]
      requires bulk ==> AheadSet(blocks, bitmap[..], Some(r.block), r.off) && lost == None
      requires Agree(blocks, mem, log, dest[blocks[r.block].base + r.off := mem[blocks[r.block].base + r.off]],
               bitmap[..], lost)
      modifies this`seen, this`offset, this`sentBlock, this`dest
      ensures Valid() && Tracked() && m.block == r.block && m.offset == r.off
      ensures PageSent(blocks, pageSize, mem, bits, old(dest), old(sentBlock), bytes, m, bitmap[..], dest)
      ensures seen == sentBlock == Some(r.block) && offset == r.off
    {
      var p := blocks[r.block].base + r.off;
      m := Msg(r.block, r.off, mem[p]);
      SentPage(blocks, pageSize, mem, bits, dest, sentBlock, m);
      bytes := Encode(blocks, Msg(r.block, r.off, mem[p]), sentBlock, pageSize);
      ghost var bits' := bitmap[..];
      dest, sentBlock, seen, offset := dest[p := mem[p]], Some(r.block), Some(r.block), r.off;
      assert bitmap[..] == bits';
    }

    /** There was no page to find. */
    method Stop(r: Result, ghost dropped: Option<nat>)
      requires Sound() && r.block < |blocks| && r.off <= blocks[r.block].pages && !bulk
      requires Agree(blocks, mem, log, dest, bitmap[..], NowLost(dropped, log, lost))
      modifies this`seen, this`offset, this`lost
      ensures Valid() && Tracked() && lost == NowLost(dropped, log, old(lost))
    {
      seen, offset, lost := Some(r.block), r.off, NowLost(dropped, log, lost);
    }

    /** A section is under way: it holds the pages ms, and both sides are in step. */
    ghost predicate Sending(section: seq<Byte>, ms: seq<Msg>, last0: Option<nat>, dest0: seq<Page>)
      reads this, bitmap
    {
      Valid() && Tracked() && Holds(blocks, pageSize, section, ms, last0, sentBlock, dest0, dest)
    }

    /** ram_save_block against the reference */
    method SaveNext() returns (bytes: seq<Byte>, ghost sent: Option<Msg>)
      requires Valid() && Tracked()
      modifies this`dirtyPages, this`seen, this`offset, this`sentBlock, this`bulk, this`dest, this`lost, bitmap
      ensures Valid() && Tracked() && Like(View(), RefSave(blocks, old(View())))
      ensures sent.Some? ==> dirtyPages < old(dirtyPages) && !View().Drops(blocks)
      ensures sent.Some? ==> MsgOk(blocks, pageSize, sent.value) && sentBlock == Some(sent.value.block) && bytes != []
      ensures sent.Some? ==> var p := blocks[sent.value.block].base + sent.value.offset;
                p < |old(dest)| && dest == old(dest)[p := sent.value.data]
                && bytes == Encode(blocks, sent.value, old(sentBlock), pageSize)
      ensures sent.None? ==> bytes == [] && sentBlock == old(sentBlock) && dest == old(dest)
      ensures sent.None? ==> !bulk && NoneLeft(blocks, bitmap[..])
      ensures old(View()).Drops(blocks) ==> sent.None?
    {
      ghost var v, d, last := View(), dest, sentBlock;
      bytes, sent := SaveBlock();
      if sent.None? {
        StopLike(blocks, v, View());
      } else {
        SendLike(blocks, pageSize, v, d, last, bytes, sent.value, View(), dest);
      }
    }

    /** One more page for a section, if there is one. What may get lost by that is what the reference says. */
    method Append(section0: seq<Byte>, ghost ms0: seq<Msg>, ghost last0: Option<nat>, ghost dest0: seq<Page>)
      returns (more: bool, section: seq<Byte>, ghost ms: seq<Msg>)
      requires Sending(section0, ms0, last0, dest0)
      modifies this`dirtyPages, this`seen, this`offset, this`sentBlock, this`bulk, this`dest, this`lost, bitmap
      ensures Sending(section, ms, last0, dest0) && Like(View(), RefSave(blocks, old(View())))
      ensures more ==> dirtyPages < old(dirtyPages) && |ms| == |ms0| + 1 && !View().Drops(blocks)
      ensures !more ==> !bulk && NoneLeft(blocks, bitmap[..]) && ms == ms0
      ensures old(View()).Drops(blocks) ==> !more
    {
      var bytes, sent := SaveNext();
      if bytes == [] {
        return false, section0, ms0;
      }
      more, section := true, section0 + bytes;
      ms := OneMore(blocks, pageSize, section0, ms0, sent.value, last0, old(sentBlock), dest0, old(dest));
    }

    /** A guest write, or the next page for a section as long as there are any. */
    method Pass(m: Moment, more0: bool, section0: seq<Byte>, ghost ms0: seq<Msg>, ghost last0: Option<nat>,
                ghost dest0: seq<Page>)
      returns (more: bool, section: seq<Byte>, ghost ms: seq<Msg>)
      requires Sending(section0, ms0, last0, dest0) && MomentOk(total, pageSize, m)
      requires !more0 ==> !bulk && NoneLeft(blocks, bitmap[..])
      modifies this`mem, this`log, this`dirtyPages, this`seen, this`offset, this`sentBlock, this`bulk, this`dest,
          this`lost, bitmap
      ensures Sending(section, ms, last0, dest0) && Like(View(), RefMoment(blocks, old(View()), m))
      ensures |ms| == |ms0| + (if m.Save? && more then 1 else 0) && (more ==> more0)
      ensures !more ==> !bulk && NoneLeft(blocks, bitmap[..]) && (more0 ==> m.Save?)
    {
      more, section, ms := more0, section0, ms0;
      if m.GuestWrites? {
        ghost var bits := bitmap[..];
        GuestWrite(m.page, m.data);
        assert bitmap[..] == bits;
      } else if more {
        more, section, ms := Append(section, ms, last0, dest0);
      }
    }

    /** ram_save_iterate: one section. The rate limit decides how many pages it may have, and the guest goes on writing
        between them. What gets lost is what the reference says. */
    method Iterate(moments: seq<Moment>) returns (section: seq<Byte>, ghost ms: seq<Msg>)
      requires Valid() && Tracked() && forall i :: 0 <= i < |moments| ==> MomentOk(total, pageSize, moments[i])
      modifies this`mem, this`log, this`dirtyPages, this`seen, this`offset, this`sentBlock, this`bulk, this`dest,
          this`lost, bitmap
      ensures Valid() && Tracked() && Like(View(), RefMoments(blocks, old(View()), moments, |moments|))
      ensures |ms| == Saves(moments, |moments|) || (|ms| < Saves(moments, |moments|) && NoneLeft(blocks, bitmap[..]))
      ensures AllOk(blocks, pageSize, ms) && section == EncodeAll(blocks, ms, old(sentBlock), pageSize) + EndMark()
      ensures dest == Store(blocks, old(dest), ms) && sentBlock == LastBlock(ms, old(sentBlock))
    {
      section, ms := Pages(moments);
      section := section + EndMark();
    }

    /** Its loop */
    method Pages(moments: seq<Moment>) returns (section: seq<Byte>, ghost ms: seq<Msg>)
      requires Valid() && Tracked() && forall i :: 0 <= i < |moments| ==> MomentOk(total, pageSize, moments[i])
      modifies this`mem, this`log, this`dirtyPages, this`seen, this`offset, this`sentBlock, this`bulk, this`dest,
          this`lost, bitmap
      ensures Sending(section, ms, old(sentBlock), old(dest))
      ensures Like(View(), RefMoments(blocks, old(View()), moments, |moments|))
      ensures |ms| == Saves(moments, |moments|) || (|ms| < Saves(moments, |moments|) && NoneLeft(blocks, bitmap[..]))
    {
      ghost var last, dest0, v := sentBlock, dest, View();
      section, ms := [], [];
      var more := true;
      for i := 0 to |moments|
        invariant Sending(section, ms, last, dest0) && Like(View(), RefMoments(blocks, v, moments, i))
        invariant if more then |ms| == Saves(moments, i) else |ms| < Saves(moments, i)
        invariant !more ==> !bulk && NoneLeft(blocks, bitmap[..])
      {
        ghost var u := View();
        more, section, ms := Pass(moments[i], more, section, ms, last, dest0);
        LikeMoment(blocks, v, u, View(), moments, i);
      }
    }

    /** The loop of ram_save_complete: a last section, with all that is marked. Only its first page may fail to be sent
        although it is marked. */
    method SendAll() returns (section: seq<Byte>, ghost ms: seq<Msg>)
      requires Valid() && Tracked() && NoneLeft(blocks, log)
      modifies this`dirtyPages, this`seen, this`offset, this`sentBlock, this`bulk, this`dest, this`lost, bitmap
      ensures Sending(section, ms, old(sentBlock), old(dest)) && NoneLeft(blocks, bitmap[..])
      ensures SameLoss(View(), RefSave(blocks, old(View())))
      ensures old(View()).Drops(blocks) ==> ms == []
    {
      ghost var last, dest0, v := sentBlock, dest, View();
      section, ms := [], [];
      var more;
      more, section, ms := Append(section, ms, last, dest0);
      while more
        invariant Sending(section, ms, last, dest0) && SameLoss(View(), RefSave(blocks, v))
        invariant more ==> !View().Drops(blocks)
        invariant !more ==> NoneLeft(blocks, bitmap[..])
        invariant v.Drops(blocks) ==> !more && ms == []
        decreases if more then dirtyPages + 1 else 0
      {
        ghost var u := View();
        more, section, ms := Append(section, ms, last, dest0);
        LossKept(blocks, u, View());
      }
    }

    /** ram_save_complete, with the guest stopped: it terminates, and afterwards every page of RAM is the
        same on both sides unless it is lost; what is lost is what the reference says. */
    method Complete() returns (section: seq<Byte>, ghost ms: seq<Msg>)
      requires Valid() && Tracked()
      modifies this`log, this`dirtyPages, this`seen, this`offset, this`sentBlock, this`bulk, this`dest, this`lost,
          bitmap
      ensures Valid() && LostIsLast() && SameLoss(View(), RefEnd(blocks, old(View())))
      ensures AllOk(blocks, pageSize, ms) && section == EncodeAll(blocks, ms, old(sentBlock), pageSize) + EndMark()
      ensures dest == Store(blocks, old(dest), ms) && sentBlock == LastBlock(ms, old(sentBlock))
      ensures forall p: nat :: InRam(blocks, p) && p < total && lost != Some(p) ==> dest[p] == mem[p]
      ensures RefSync(blocks, old(View())).Drops(blocks) ==> ms == []
    {
      Sync();
      section, ms := SendAll();
      section := section + EndMark();
    }
  }

  // ---- Whole migrations --------------------------------------------------------------------------------

  /** What may happen before the guest is stopped. */
  datatype Event = Write(page: nat, data: Page) | Sync | Iterate(moments: seq<Moment>)

  ghost predicate EventOk(total: nat, pageSize: nat, e: Event) {
    match e
    case Write(page, data) => page < total && |data| == pageSize
    case Sync => true
    case Iterate(moments) => forall i :: 0 <= i < |moments| ==> MomentOk(total, pageSize, moments[i])
  }

  ghost function RefEvent(blocks: seq<Block>, r: Ref, e: Event): Ref {
    match e
    case Write(page, data) => RefWrite(r, page, data)
    case Sync => RefSync(blocks, r)
    case Iterate(moments) => RefMoments(blocks, r, moments, |moments|)
  }

  /** The reference after the first n events */
  ghost function RefRun(blocks: seq<Block>, r: Ref, script: seq<Event>, n: nat): Ref
    requires n <= |script|
  {
    if n == 0 then r else RefEvent(blocks, RefRun(blocks, r, script, n - 1), script[n - 1])
  }

  lemma LikeEvent(blocks: seq<Block>, v: Ref, u: Ref, w: Ref, script: seq<Event>, n: nat)
    requires n < |script| && Like(u, RefRun(blocks, v, script, n)) && Like(w, RefEvent(blocks, u, script[n]))
    ensures Like(w, RefRun(blocks, v, script, n + 1))
  {
    var r, e := RefRun(blocks, v, script, n), script[n];
    match e {
      case Write(page, data) => LikeGoesOn(blocks, u, r, page, data);
      case Sync => LikeGoesOn(blocks, u, r, 0, []);
      case Iterate(moments) => LikeMoments(blocks, u, r, moments, |moments|);
    }
    LikeTrans(w, RefEvent(blocks, u, e), RefEvent(blocks, r, e));
  }

  /** Guest memory after the guest's writes among the first n events. */
  function Written(mem: seq<Page>, script: seq<Event>, n: nat): (r: seq<Page>)
    requires n <= |script|
    ensures |r| == |mem|
  {
    if n == 0 then mem else AfterEvent(Written(mem, script, n - 1), script[n - 1])
  }

  function AfterEvent(mem: seq<Page>, e: Event): (r: seq<Page>)
    ensures |r| == |mem|
  {
    match e
    case Write(page, data) => if page < |mem| then mem[page := data] else mem
    case Sync => mem
    case Iterate(moments) => Meanwhile(mem, moments, |moments|)
  }

  lemma {:induction false} RefWritten(blocks: seq<Block>, r: Ref, script: seq<Event>, n: nat)
    requires n <= |script|
    ensures RefRun(blocks, r, script, n).mem == Written(r.mem, script, n)
  {
    if n > 0 {
      RefWritten(blocks, r, script, n - 1);
      if script[n - 1].Iterate? {
        var moments := script[n - 1].moments;
        RefMeanwhile(blocks, RefRun(blocks, r, script, n - 1), moments, |moments|);
      }
    }
  }

  /** The receiver d has loaded all that s has sent. */
  ghost predicate InStep(s: RamSave, d: Dest)
    reads s, s.bitmap
  {
    && s.Valid() && s.Tracked() && BlocksOk(s.blocks, s.total, s.pageSize)
    && d.mem == s.dest && (s.sentBlock.Some? ==> d.block == s.sentBlock)
  }

  /** One event at the source, and what it sends loaded at the destination. */
  method Step(s: RamSave, e: Event, d0: Dest) returns (ret: int, d: Dest)
    requires InStep(s, d0) && EventOk(s.total, s.pageSize, e)
    modifies s, s.bitmap
    ensures ret == 0 && InStep(s, d) && Like(s.View(), RefEvent(s.blocks, old(s.View()), e))
  {
    ret, d := 0, d0;
    match e {
      case Write(p, data) => s.GuestWrite(p, data);
      case Sync => s.Sync();
      case Iterate(moments) =>
        ghost var last, ms := s.sentBlock, [];
        var section;
        section, ms := s.Iterate(moments);
        SectionRoundTrip(s.blocks, ms, last, d0, s.total, s.pageSize);
        ret, d := RamLoad(s.blocks, section, d0, s.pageSize);
    }
  }

  /** Any run of events */
  method Steps(s: RamSave, script: seq<Event>, d0: Dest) returns (ret: int, d: Dest)
    requires InStep(s, d0) && forall i :: 0 <= i < |script| ==> EventOk(s.total, s.pageSize, script[i])
    modifies s, s.bitmap
    ensures ret == 0 && InStep(s, d) && Like(s.View(), RefRun(s.blocks, old(s.View()), script, |script|))
  {
    ghost var v := s.View();
    ret, d := 0, d0;
    for i := 0 to |script|
      invariant ret == 0 && InStep(s, d) && Like(s.View(), RefRun(s.blocks, v, script, i))
    {
      ghost var u := s.View();
      ret, d := Step(s, script[i], d);
      LikeEvent(s.blocks, v, u, s.View(), script, i);
    }
  }

  /** Both sides are the same in all of RAM, but for a lost last page, of which the receiver has what the reference
      says. */
  ghost predicate Migrated(blocks: seq<Block>, total: nat, mem: seq<Page>, dest: seq<Page>, r: Ref) {
    && |mem| == |dest| == total
    && (forall p: nat :: InRam(blocks, p) && p < total && r.lost != Some(p) ==> dest[p] == mem[p])
    && (r.lost.Some? ==> r.lost.value == LastPage(blocks) < total && InRam(blocks, r.lost.value)
                         && blocks != [] && blocks[|blocks| - 1].pages > 1 && dest[r.lost.value] == r.copy)
  }

  /** The last section, loaded at the destination. */
  method Finish(s: RamSave, d0: Dest) returns (ret: int, d: Dest)
    requires InStep(s, d0)
    modifies s, s.bitmap
    ensures ret == 0 && s.Valid() && s.mem == old(s.mem) && s.lost == RefEnd(s.blocks, old(s.View())).lost
    ensures Migrated(s.blocks, s.total, s.mem, d.mem, RefEnd(s.blocks, old(s.View())))
  {
    ghost var last, ms := s.sentBlock, [];
    var section;
    section, ms := s.Complete();
    SectionRoundTrip(s.blocks, ms, last, d0, s.total, s.pageSize);
    ret, d := RamLoad(s.blocks, section, d0, s.pageSize);
    if s.lost.Some? { assert InRam(s.blocks, s.lost.value) by { LastInRam(s.blocks); } }
  }

  lemma LastInRam(blocks: seq<Block>)
    requires blocks != [] && blocks[|blocks| - 1].pages > 0
    ensures InRam(blocks, LastPage(blocks))
  {
    var b := blocks[|blocks| - 1];
    assert b.base <= LastPage(blocks) < b.base + b.pages;
  }

  /** From any state in which the receiver is in step: after any run of guest writes, syncs and sections
      and then ram_save_complete, the receiver has accepted everything and every page of RAM is the same
      on both sides, but for the last page, exactly if the reference loses it. */
  method Run(s: RamSave, script: seq<Event>, d0: Dest) returns (ret: int, d: Dest)
    requires InStep(s, d0) && forall i :: 0 <= i < |script| ==> EventOk(s.total, s.pageSize, script[i])
    modifies s, s.bitmap
    ensures ret == 0 && s.Valid() && s.mem == Written(old(s.mem), script, |script|)
    ensures var r := RefEnd(s.blocks, RefRun(s.blocks, old(s.View()), script, |script|));
            s.lost == r.lost && r.mem == s.mem && Migrated(s.blocks, s.total, s.mem, d.mem, r)
    ensures old(!s.bulk && s.lost == None) ==> s.lost == None
  {
    ghost var v := s.View();
    ret, d := Steps(s, script, d0);
    ghost var u, r := s.View(), RefRun(s.blocks, v, script, |script|);
    ret, d := Finish(s, d);
    LikeEnd(s.blocks, u, r);
    RefWritten(s.blocks, v, script, |script|);
    if !v.bulk && v.lost == None { NothingLost(s.blocks, v, script, |script|); }
  }

  /** After the bulk stage nothing gets lost. */
  lemma {:induction false} NothingLost(blocks: seq<Block>, r: Ref, script: seq<Event>, n: nat)
    requires n <= |script| && !r.bulk && r.lost == None
    ensures var q := RefRun(blocks, r, script, n); !q.bulk && q.lost == None
    ensures RefEnd(blocks, RefRun(blocks, r, script, n)).lost == None
  {
    if n > 0 {
      NothingLost(blocks, r, script, n - 1);
      if script[n - 1].Iterate? {
        NothingLostIn(blocks, RefRun(blocks, r, script, n - 1), script[n - 1].moments, |script[n - 1].moments|);
      }
    }
  }

  lemma {:induction false} NothingLostIn(blocks: seq<Block>, r: Ref, moments: seq<Moment>, n: nat)
    requires n <= |moments| && !r.bulk && r.lost == None
    ensures var q := RefMoments(blocks, r, moments, n); !q.bulk && q.lost == None
  {
    if n > 0 { NothingLostIn(blocks, r, moments, n - 1); }
  }

  /** ram_save_setup, and its section loaded by the receiver */
  method Setup(blocks: seq<Block>, total: nat, pageSize: nat, mem: seq<Page>, log: seq<bool>, d0: Dest)
    returns (s: RamSave, ret: int, d: Dest)
    requires BlocksOk(blocks, total, pageSize) && |mem| == |log| == |d0.mem| == total
    requires forall p :: 0 <= p < total ==> |mem[p]| == pageSize
    ensures fresh(s) && fresh(s.bitmap) && ret == 0 && InStep(s, d)
    ensures s.blocks == blocks && s.total == total && s.pageSize == pageSize && s.mem == mem
    ensures s.View() == RefStart(blocks, mem, log, d0.mem)
  {
    s := new RamSave(blocks, total, pageSize, mem, log, d0.mem);
    assert s.bitmap[..] == seq(|mem|, _ => true);
    s.Sync();
    SetupAccepted(blocks, d0, total, pageSize);
    ret, d := RamLoad(blocks, SetupSection(blocks), d0, pageSize);
  }

  /** The reference at the start of a migration: everything is marked, and the log has just been synced. */
  ghost function RefStart(blocks: seq<Block>, mem: seq<Page>, log: seq<bool>, dest: seq<Page>): Ref {
    var copy := if LastPage(blocks) < |dest| then dest[LastPage(blocks)] else [];
    RefSync(blocks, Ref(mem, log, seq(|mem|, _ => true), None, 0, true, copy, None))
  }

  /** How a migration ends, from its inputs alone */
  ghost function Predicted(blocks: seq<Block>, mem: seq<Page>, log: seq<bool>, dest: seq<Page>,
                           script: seq<Event>): Ref {
    RefEnd(blocks, RefRun(blocks, RefStart(blocks, mem, log, dest), script, |script|))
  }

  /** A migration from its start: setup, any run of events, completion. The receiver ends with all of the guest's
      memory if and only if the reference, which is a function of the inputs, does not lose the last page, or loses
      only marks. */
  method Migrate(blocks: seq<Block>, total: nat, pageSize: nat, mem: seq<Page>, log: seq<bool>, script: seq<Event>,
                 d0: Dest)
    returns (ret: int, d: Dest)
    requires BlocksOk(blocks, total, pageSize) && |mem| == |log| == |d0.mem| == total
    requires forall p :: 0 <= p < total ==> |mem[p]| == pageSize
    requires forall i :: 0 <= i < |script| ==> EventOk(total, pageSize, script[i])
    ensures ret == 0
    ensures var r := Predicted(blocks, mem, log, d0.mem, script);
            && r.mem == Written(mem, script, |script|) && Migrated(blocks, total, r.mem, d.mem, r)
            && ((forall p: nat :: InRam(blocks, p) && p < total ==> d.mem[p] == r.mem[p])
                <==> (r.lost == None || r.copy == r.mem[r.lost.value]))
    ensures Unwritten(script, LastPage(blocks)) ==>
              forall p: nat :: InRam(blocks, p) && p < total ==> d.mem[p] == Written(mem, script, |script|)[p]
  {
    var s;
    s, ret, d := Setup(blocks, total, pageSize, mem, log, d0);
    ret, d := Run(s, script, d);
    if Unwritten(script, LastPage(blocks)) { UnwrittenKept(blocks, total, mem, log, d0.mem, script); }
  }

  /** The script never writes page p. */
  ghost predicate Unwritten(script: seq<Event>, p: nat) {
    forall i :: 0 <= i < |script| ==> EventSpares(script[i], p)
  }

  ghost predicate EventSpares(e: Event, p: nat) {
    match e
    case Write(page, _) => page != p
    case Sync => true
    case Iterate(moments) => forall i :: 0 <= i < |moments| ==> moments[i] == Save || moments[i].page != p
  }

  /** The last page is not in the log, and once the cursor has come to it, it is not marked. */
  ghost predicate LastClean(blocks: seq<Block>, r: Ref) {
    && r.lost == None && LastPage(blocks) < |r.log| == |r.bits| && !r.log[LastPage(blocks)]
    && (r.bulk && r.seen == Some(|blocks| - 1) && r.offset + 1 == blocks[|blocks| - 1].pages ==>
       !r.bits[LastPage(blocks)])
  }

  lemma CleanStays(blocks: seq<Block>, r: Ref, p: nat, data: Page)
    requires blocks != [] && blocks[|blocks| - 1].pages > 0 && LastClean(blocks, r)
    ensures LastClean(blocks, RefSave(blocks, r)) && LastClean(blocks, RefSync(blocks, r))
    ensures p != LastPage(blocks) ==> LastClean(blocks, RefWrite(r, p, data))
  {
  }

  lemma {:induction false} CleanMoments(blocks: seq<Block>, r: Ref, moments: seq<Moment>, n: nat)
    requires blocks != [] && blocks[|blocks| - 1].pages > 0 && LastClean(blocks, r) && n <= |moments|
    requires forall i :: 0 <= i < |moments| ==> moments[i] == Save || moments[i].page != LastPage(blocks)
    ensures LastClean(blocks, RefMoments(blocks, r, moments, n))
  {
    if n > 0 {
      CleanMoments(blocks, r, moments, n - 1);
      var m := moments[n - 1];
      CleanStays(blocks, RefMoments(blocks, r, moments, n - 1), if m.Save? then 0 else m.page, if m.Save? then []
          else m.data);
    }
  }

  lemma {:induction false} CleanRun(blocks: seq<Block>, r: Ref, script: seq<Event>, n: nat)
    requires blocks != [] && blocks[|blocks| - 1].pages > 0 && LastClean(blocks, r) && n <= |script|
    requires Unwritten(script, LastPage(blocks))
    ensures LastClean(blocks, RefRun(blocks, r, script, n))
  {
    if n > 0 {
      CleanRun(blocks, r, script, n - 1);
      var q, e := RefRun(blocks, r, script, n - 1), script[n - 1];
      assert EventSpares(e, LastPage(blocks));
      match e {
        case Write(page, data) => CleanStays(blocks, q, page, data);
        case Sync => CleanStays(blocks, q, 0, []);
        case Iterate(moments) => CleanMoments(blocks, q, moments, |moments|);
      }
    }
  }

  /** If the guest never writes the last page of the last block during a migration, nothing is lost. */
  lemma UnwrittenKept(blocks: seq<Block>, total: nat, mem: seq<Page>, log: seq<bool>, dest: seq<Page>,
                      script: seq<Event>)
    requires Layout(blocks, total) && |mem| == |log| == |dest| == total && Unwritten(script, LastPage(blocks))
    ensures Predicted(blocks, mem, log, dest, script).lost == None
  {
    LastInRam(blocks);
    var r := RefStart(blocks, mem, log, dest);
    assert LastClean(blocks, r);
    CleanRun(blocks, r, script, |script|);
    CleanStays(blocks, RefRun(blocks, r, script, |script|), 0, []);
    CleanStays(blocks, RefSync(blocks, RefRun(blocks, r, script, |script|)), 0, []);
  }

  // ---- A dropped page ----------------------------------------------------------------------------------

  /** One block of two pages */
  function Pair(pageSize: nat): seq<Block> { [Block([], 0, 2, 2 * pageSize)] }

  lemma PairInRam(pageSize: nat, p: nat)
    ensures InRam(Pair(pageSize), p) <==> p < 2
  {
    assert Pair(pageSize)[0] == Block([], 0, 2, 2 * pageSize);
  }

  /** Both pages are sent, and then the guest writes the second one again. */
  function PairScript(new1: Page): seq<Event> { [Iterate([Save, Save]), Write(1, new1)] }

  lemma PairStart(old0: Page, old1: Page, dest: seq<Page>)
    requires |dest| == 2
    ensures RefStart(Pair(|old0|), [old0, old1], [false, false], dest)
            == Ref([old0, old1], [false, false], [true, true], None, 0, true, dest[1], None)
  {
    var r := RefStart(Pair(|old0|), [old0, old1], [false, false], dest);
    assert r.bits == [true, true] && r.log == [false, false];
  }

  lemma PairSent(old0: Page, old1: Page, copy: Page)
    ensures RefMoments(Pair(|old0|), Ref([old0, old1], [false, false], [true, true], None, 0, true, copy, None),
            [Save, Save], 2)
            == Ref([old0, old1], [false, false], [false, false], Some(0), 1, true, old1, None)
  {
    var blocks, moments := Pair(|old0|), [Save, Save];
    var r := Ref([old0, old1], [false, false], [true, true], None, 0, true, copy, None);
    assert RefMoments(blocks, r, moments, 1)
           == Ref([old0, old1], [false, false], [false, true], Some(0), 0, true, copy, None);
  }

  lemma PairEnds(old0: Page, old1: Page, new1: Page)
    ensures RefEnd(Pair(|old0|), Ref([old0, new1], [false, true], [false, false], Some(0), 1, true, old1, None))
            == Ref([old0, new1], [false, false], [false, true], Some(0), 1, false, old1, Some(1))
  {
    var blocks := Pair(|old0|);
    forall p: nat
      ensures InRam(blocks, p) <==> p < 2
    {
      PairInRam(|old0|, p);
    }
    var r := RefSync(blocks, Ref([old0, new1], [false, true], [false, false], Some(0), 1, true, old1, None));
    assert r.bits == [false, true] && r.log == [false, false];
    assert Dropped(blocks, r.bits, r.seen, r.offset, true) == Some(1);
  }

  lemma PairPredicted(old0: Page, old1: Page, new1: Page, dest: seq<Page>)
    requires |dest| == 2
    ensures Predicted(Pair(|old0|), [old0, old1], [false, false], dest, PairScript(new1))
            == Ref([old0, new1], [false, false], [false, true], Some(0), 1, false, old1, Some(1))
  {
    var blocks, script := Pair(|old0|), PairScript(new1);
    PairStart(old0, old1, dest);
    PairSent(old0, old1, dest[1]);
    PairEnds(old0, old1, new1);
    var r := RefStart(blocks, [old0, old1], [false, false], dest);
    assert RefRun(blocks, r, script, 1) == Ref([old0, old1], [false, false], [false, false], Some(0), 1, true, old1,
        None);
    assert RefRun(blocks, r, script, 2) == Ref([old0, new1], [false, true], [false, false], Some(0), 1, true, old1,
        None);
  }

  /** A lost page: a guest with one block of two pages, both sent; it writes the second one again before it is stopped.
      The receiver accepts everything and ends with the old contents. */
  method DroppedPage(old0: Page, old1: Page, new1: Page, d0: Dest) returns (ret: int, d: Dest)
    requires |old0| == |old1| == |new1| && old1 != new1 && |d0.mem| == 2 && BlocksOk(Pair(|old0|), 2, |old0|)
    ensures Written([old0, old1], PairScript(new1), |PairScript(new1)|) == [old0, new1]
    ensures ret == 0 && d.mem == [old0, old1]
  {
    var blocks, script := Pair(|old0|), PairScript(new1);
    ret, d := Migrate(blocks, 2, |old0|, [old0, old1], [false, false], script, d0);
    PairPredicted(old0, old1, new1, d0.mem);
    PairInRam(|old0|, 0);
  }
}
