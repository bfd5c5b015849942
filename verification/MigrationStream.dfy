/** The RAM section of the migration stream: how arch_init.c writes a page (`save_block_hdr`) and how the
    receiving side reads it back (`host_from_stream_offset`, `ram_load`). */
module MigrationStream {
  import opened Arith
  import opened Bytes
  import opened Options

  type Page = seq<Byte>

  // ---- Big-endian numbers ------------------------------------------------------------------------

  function Pow256(k: nat): (r: nat)
    ensures r > 0
  {
    if k == 0 then 1 else 256 * Pow256(k - 1)
  }

  /** The eight bytes of a be64 */
  function WordSize(): nat { 8 }

  /** qemu_put_be64, for k == WordSize() */
  function PutBe(n: nat, k: nat): (s: seq<Byte>)
    ensures |s| == k
  {
    if k == 0 then [] else PutBe(n / 256, k - 1) + [n % 256]
  }

  function GetBe(s: seq<Byte>): nat {
    if s == [] then 0 else GetBe(s[..|s| - 1]) * 256 + s[|s| - 1]
  }

  lemma {:induction false} BeRoundTrip(n: nat, k: nat)
    requires n < Pow256(k)
    ensures GetBe(PutBe(n, k)) == n
  {
    if k > 0 {
      BeRoundTrip(n / 256, k - 1);
      assert PutBe(n, k)[..k - 1] == PutBe(n / 256, k - 1);
    }
  }

  /** The most significant byte comes first. */
  lemma {:induction false} BeDigits(n: nat, k: nat, i: nat)
    requires i < k
    ensures PutBe(n, k)[i] == n / Pow256(k - 1 - i) % 256
  {
    if i < k - 1 {
      BeDigits(n / 256, k - 1, i);
      DivDiv(n, 256, Pow256(k - 2 - i));
    }
  }

  // ---- RAM blocks and messages ----------------------------------------------------------------------

  /** RAMBlock: its name, its place in the RAM address space in pages, and its length in bytes */
  datatype Block = Block(id: seq<Byte>, base: nat, pages: nat, length: nat)

  /** The bytes of the blocks from k on; of all of them, ram_bytes_total */
  function TotalBytes(blocks: seq<Block>, k: nat): nat
    requires k <= |blocks|
    decreases |blocks| - k
  {
    if k == |blocks| then 0 else TotalBytes(blocks, k + 1) + blocks[k].length
  }

  /** Blocks are there, non-empty, within RAM and apart. */
  ghost predicate Layout(blocks: seq<Block>, total: nat) {
    && 0 < |blocks|
    && (forall i :: 0 <= i < |blocks| ==> 0 < blocks[i].pages && blocks[i].base + blocks[i].pages <= total)
    && (forall i, j {:trigger Apart(blocks[i], blocks[j])} :: 0 <= i < j < |blocks| ==> Apart(blocks[i], blocks[j]))
  }

  predicate Apart(a: Block, b: Block) { a.base + a.pages <= b.base || b.base + b.pages <= a.base }

  /** Names tell blocks apart. */
  predicate Named(a: Block, b: Block) { a.id != b.id }

  /** What the stream format relies on: flags fit below a page offset, offsets fit in a word, names are
      short and distinct. */
  ghost predicate BlocksOk(blocks: seq<Block>, total: nat, pageSize: nat) {
    && Layout(blocks, total)
    && 256 <= pageSize && total * pageSize < Pow256(WordSize()) && TotalBytes(blocks, 0) + pageSize < Pow256(WordSize())
    && (forall i :: 0 <= i < |blocks| ==> blocks[i].length == blocks[i].pages * pageSize && |blocks[i].id| < 256)
    && (forall i, j {:trigger Named(blocks[i], blocks[j])} :: 0 <= i < j < |blocks| ==> Named(blocks[i], blocks[j]))
  }

  /** One page on its way: page `offset` of block `block`. */
  datatype Msg = Msg(block: nat, offset: nat, data: Page)

  ghost predicate MsgOk(blocks: seq<Block>, pageSize: nat, m: Msg) {
    m.block < |blocks| && m.offset < blocks[m.block].pages && |m.data| == pageSize
  }

  const COMPRESS: nat := 0x02
  const MEM_SIZE: nat := 0x04
  const PAGE: nat := 0x08
  const EOS: nat := 0x10
  const CONTINUE: nat := 0x20

  predicate Bit(flags: nat, bit: nat)
    requires bit > 0
  {
    flags / bit % 2 == 1
  }

  predicate IsZero(p: Page) { forall i :: 0 <= i < |p| ==> p[i] == 0 }

  function Filled(ch: Byte, pageSize: nat): Page { seq(pageSize, _ => ch) }

  /** save_block_hdr */
  function Header(b: Block, offset: nat, cont: bool, flag: nat, pageSize: nat): seq<Byte> {
    PutBe(offset * pageSize + (if cont then CONTINUE else 0) + flag, WordSize()) + (if cont then [] else IdBytes(b.id))
  }

  /** A name with its length before it; names are shorter than 256 bytes. */
  function IdBytes(id: seq<Byte>): seq<Byte> { [|id| % 256] + id }

  /** What ram_save_block writes for one page, when `last` is the block it sent from before. */
  function Encode(blocks: seq<Block>, m: Msg, last: Option<nat>, pageSize: nat): (r: seq<Byte>)
    requires m.block < |blocks|
    ensures r != []
  {
    var b, cont := blocks[m.block], last == Some(m.block);
    if IsZero(m.data) then Header(b, m.offset, cont, COMPRESS, pageSize) + [0]
    else Header(b, m.offset, cont, PAGE, pageSize) + m.data
  }

  /** A run of pages, written one after the other. */
  function EncodeAll(blocks: seq<Block>, ms: seq<Msg>, last: Option<nat>, pageSize: nat): seq<Byte>
    requires forall i :: 0 <= i < |ms| ==> ms[i].block < |blocks|
  {
    if ms == [] then []
    else
      var n := |ms| - 1;
      EncodeAll(blocks, ms[..n], last, pageSize) + Encode(blocks, ms[n], LastBlock(ms[..n], last), pageSize)
  }

  function LastBlock(ms: seq<Msg>, last: Option<nat>): Option<nat> {
    if ms == [] then last else Some(ms[|ms| - 1].block)
  }

  /** Memory after the pages have been stored, in order. */
  function Store(blocks: seq<Block>, mem: seq<Page>, ms: seq<Msg>): (r: seq<Page>)
    requires forall i :: 0 <= i < |ms| ==> ms[i].block < |blocks|
    ensures |r| == |mem|
  {
    if ms == [] then mem
    else
      var n := |ms| - 1;
      var r, p := Store(blocks, mem, ms[..n]), blocks[ms[n].block].base + ms[n].offset;
      if p < |r| then r[p := ms[n].data] else r
  }

  // ---- Reading the stream back --------------------------------------------------------------------

  /** The receiver: its memory, and the block that its last named page belonged to. */
  datatype Dest = Dest(mem: seq<Page>, block: Option<nat>)

  datatype Parse = Bad | Page(host: nat, block: nat, rest: seq<Byte>)

  /** The index of the block with this name. */
  function FindBlock(blocks: seq<Block>, id: seq<Byte>, k: nat): (r: Option<nat>)
    requires k <= |blocks|
    ensures r.Some? ==> k <= r.value < |blocks|
    decreases |blocks| - k
  {
    if k == |blocks| then None else if blocks[k].id == id then Some(k) else FindBlock(blocks, id, k + 1)
  }

  /** It is the first one. */
  lemma {:induction false} FindBlockIs(blocks: seq<Block>, id: seq<Byte>, k: nat)
    requires k <= |blocks|
    ensures var r := FindBlock(blocks, id, k);
            && (r.Some? ==> blocks[r.value].id == id)
            && forall i :: k <= i < (if r.Some? then r.value else |blocks|) ==> blocks[i].id != id
    decreases |blocks| - k
  {
    if k < |blocks| && blocks[k].id != id { FindBlockIs(blocks, id, k + 1); }
  }

  /** A length byte and that many bytes, and what follows. */
  function TakeId(f: seq<Byte>): Option<(seq<Byte>, seq<Byte>)> {
    if f == [] then None
    else
      var n: int := f[0];
      if |f| < 1 + n then None else Some((f[1..1 + n], f[1 + n..]))
  }

  /** host_from_stream_offset: the page number that a header stands for. */
  function HostFrom(blocks: seq<Block>, f: seq<Byte>, offset: nat, flags: nat, block: Option<nat>): (r: Parse)
    ensures r.Page? ==> |r.rest| <= |f|
  {
    if Bit(flags, CONTINUE) then
      if block.None? || block.value >= |blocks| || offset >= blocks[block.value].pages then Bad
      else Page(blocks[block.value].base + offset, block.value, f)
    else
      match TakeId(f)
      case None => Bad
      case Some((id, rest)) =>
        match FindBlock(blocks, id, 0)
        case None => Bad
        case Some(i) => if offset >= blocks[i].pages then Bad else Page(blocks[i].base + offset, i, rest)
  }

  /** total - length on 64-bit words */
  function Less(total: nat, length: nat): nat { (total - length) % Pow256(WordSize()) }

  /** One entry of the block list: its length, if it names a block of that length, and what follows. */
  function TakeEntry(blocks: seq<Block>, f: seq<Byte>): (r: Option<(nat, seq<Byte>)>)
    ensures r.Some? ==> |r.value.1| < |f|
  {
    match TakeId(f)
    case None => None
    case Some((id, rest)) =>
      if |rest| < WordSize() then None
      else
        var length := GetBe(rest[..WordSize()]);
        match FindBlock(blocks, id, 0)
        case None => None
        case Some(i) => if blocks[i].length != length then None else Some((length, rest[WordSize()..]))
  }

  /** The block-list check of ram_load: entries until `total` bytes are accounted for; what follows, or
      nothing if a block is unknown or its length differs. */
  function CheckBlocks(blocks: seq<Block>, f: seq<Byte>, total: nat): (r: Option<seq<Byte>>)
    ensures r.Some? ==> |r.value| <= |f|
    decreases |f|
  {
    if total == 0 then Some(f)
    else
      match TakeEntry(blocks, f)
      case None => None
      case Some((length, rest)) => CheckBlocks(blocks, rest, Less(total, length))
  }

  /** One turn of ram_load's loop: an error, or the new state, the unread input and whether this was the
      end of the section. */
  datatype Turn = Error | Next(d: Dest, rest: seq<Byte>, done: bool)

  function LoadTurn(blocks: seq<Block>, f: seq<Byte>, d: Dest, pageSize: nat): (r: Turn)
    requires pageSize > 0
    ensures r.Next? ==> |r.rest| < |f| && |r.d.mem| == |d.mem|
  {
    if |f| < WordSize() then Error
    else
      var word := GetBe(f[..WordSize()]);
      LoadWord(blocks, word / pageSize, word % pageSize, f[WordSize()..], d, pageSize)
  }

  /** The same, once the first word has been split into a page offset and flags. */
  function LoadWord(blocks: seq<Block>, offset: nat, flags: nat, body: seq<Byte>, d: Dest, pageSize: nat): (r: Turn)
    ensures r.Next? ==> |r.rest| <= |body| && |r.d.mem| == |d.mem|
  {
    var checked := if Bit(flags, MEM_SIZE) then CheckBlocks(blocks, body, offset * pageSize) else Some(body);
    if checked.None? then Error else LoadRecord(blocks, offset, flags, checked.value, d, pageSize)
  }

  /** The same, once a block list has been read. */
  function LoadRecord(blocks: seq<Block>, offset: nat, flags: nat, body: seq<Byte>, d: Dest, pageSize: nat): (r: Turn)
    ensures r.Next? ==> |r.rest| <= |body| && |r.d.mem| == |d.mem|
  {
    if Bit(flags, COMPRESS) || Bit(flags, PAGE) then
      match HostFrom(blocks, body, offset, flags, d.block)
      case Bad => Error
      case Page(host, block, rest) => LoadPage(host, block, Bit(flags, COMPRESS), rest, d, pageSize, Bit(flags, EOS))
    else if Bit(flags, 0x40) || Bit(flags, 0x80) then Error
    else Next(d, body, Bit(flags, EOS))
  }

  function LoadPage(host: nat, block: nat, compressed: bool, rest: seq<Byte>, d: Dest, pageSize: nat,
                    done: bool): (r: Turn)
    ensures r.Next? ==> |r.rest| <= |rest| && |r.d.mem| == |d.mem|
  {
    var size := if compressed then 1 else pageSize;
    if |rest| < size || host >= |d.mem| then Error
    else
      var data := if compressed then Filled(rest[0], pageSize) else rest[..size];
      Next(Dest(d.mem[host := data], Some(block)), rest[size..], done)
  }

  /** ram_load on one section: the receiver afterwards, and the unread input. */
  function Load(blocks: seq<Block>, f: seq<Byte>, d: Dest, pageSize: nat): (r: Turn)
    requires pageSize > 0
    ensures r.Next? ==> |r.rest| < |f| && r.done
    decreases |f|
  {
    var turn := LoadTurn(blocks, f, d, pageSize);
    if turn.Error? || turn.done then turn else Load(blocks, turn.rest, turn.d, pageSize)
  }

  method RamLoad(blocks: seq<Block>, f0: seq<Byte>, d0: Dest, pageSize: nat) returns (ret: int, d: Dest)
    requires pageSize > 0
    ensures ret == 0 <==> Load(blocks, f0, d0, pageSize).Next?
    ensures ret == 0 ==> d == Load(blocks, f0, d0, pageSize).d
  {
    d := d0;
    var f, done := f0, false;
    while !done
      invariant !done ==> Load(blocks, f0, d0, pageSize) == Load(blocks, f, d, pageSize)
      invariant done ==> Load(blocks, f0, d0, pageSize) == Next(d, f, true)
      decreases |f|
    {
      var turn := LoadTurn(blocks, f, d, pageSize);
      if turn.Error? {
        return -22, d;
      }
      d, f, done := turn.d, turn.rest, turn.done;
    }
    ret := 0;
  }

  // ---- Round trips ----------------------------------------------------------------------------------

  /** A header word splits into the offset and the flags that went into it. */
  lemma WordSplits(offset: nat, flags: nat, pages: nat, total: nat, pageSize: nat)
    requires offset < pages <= total && flags < pageSize && total * pageSize < Pow256(WordSize())
    ensures var word := offset * pageSize + flags;
            GetBe(PutBe(word, WordSize())) == word && word / pageSize == offset && word % pageSize == flags
  {
    MulMonotone(offset + 1, total, pageSize);
    BeRoundTrip(offset * pageSize + flags, WordSize());
    DivIs(offset * pageSize + flags, offset, flags, pageSize);
  }

  lemma TakeIdBytes(id: seq<Byte>, rest: seq<Byte>)
    requires |id| < 256
    ensures TakeId(IdBytes(id) + rest) == Some((id, rest))
  {
    var f := IdBytes(id) + rest;
    assert f[1..1 + |id|] == id;
    assert f[1 + |id|..] == rest;
  }

  lemma FindBlockByName(blocks: seq<Block>, i: nat, total: nat, pageSize: nat)
    requires BlocksOk(blocks, total, pageSize) && i < |blocks|
    ensures FindBlock(blocks, blocks[i].id, 0) == Some(i)
  {
    FindBlockIs(blocks, blocks[i].id, 0);
    forall j | 0 <= j < |blocks| && j != i
      ensures blocks[j].id != blocks[i].id
    {
      assert if j < i then Named(blocks[j], blocks[i]) else Named(blocks[i], blocks[j]);
    }
  }

  /** The receiver's block that a record is for: the one of the record before, or the first one of the name given. */
  function BlockFor(theirs: seq<Block>, id: seq<Byte>, cont: bool, block: Option<nat>): Option<nat> {
    if cont then block else FindBlock(theirs, id, 0)
  }

  /** The page of a record at the receiver, if it has such a block and such a page in it */
  function PageFor(theirs: seq<Block>, id: seq<Byte>, cont: bool, block: Option<nat>, offset: nat,
                   rest: seq<Byte>): Parse {
    match BlockFor(theirs, id, cont, block)
    case None => Bad
    case Some(i) =>
      if i < |theirs| && offset < theirs[i].pages then Parse.Page(theirs[i].base + offset, i, rest) else Bad
  }

  lemma HostOfHeader(theirs: seq<Block>, id: seq<Byte>, cont: bool, offset: nat, block: Option<nat>, zero: bool,
                     tail: seq<Byte>)
    requires |id| < 256
    ensures HostFrom(theirs, (if cont then [] else IdBytes(id)) + tail, offset, PageFlags(cont, zero), block)
            == PageFor(theirs, id, cont, block, offset, tail)
  {
    PageFlagsBits(cont, zero);
    if cont {
      assert [] + tail == tail;
    } else {
      TakeIdBytes(id, tail);
    }
  }

  lemma CutAfter(word: seq<Byte>, rest: seq<Byte>)
    ensures (word + rest)[..|word|] == word && (word + rest)[|word|..] == rest
  {
  }

  lemma Regroup(a: seq<Byte>, b: seq<Byte>, c: seq<Byte>, d: seq<Byte>)
    ensures a + b + c + d == a + (b + (c + d))
  {
  }

  /** The record of a page, cut into its word, its name and its body. */
  lemma EncodeShape(blocks: seq<Block>, m: Msg, last: Option<nat>, tail: seq<Byte>, pageSize: nat)
    requires m.block < |blocks|
    ensures var cont, zero := last == Some(m.block), IsZero(m.data);
            var f := Encode(blocks, m, last, pageSize) + tail;
            && |f| >= WordSize()
            && f[..WordSize()] == PutBe(m.offset * pageSize + PageFlags(cont, zero), WordSize())
            && f[WordSize()..] == (if cont then [] else IdBytes(blocks[m.block].id)) + ((if zero then [0]
               else m.data) + tail)
  {
    var cont, zero := last == Some(m.block), IsZero(m.data);
    var word, id := PutBe(m.offset * pageSize + PageFlags(cont, zero), WordSize()), if cont then []
        else IdBytes(blocks[m.block].id);
    var body := if zero then [0] else m.data;
    Regroup(word, id, body, tail);
    CutAfter(word, id + (body + tail));
  }

  function PageFlags(cont: bool, zero: bool): nat {
    (if cont then CONTINUE else 0) + (if zero then COMPRESS else PAGE)
  }

  lemma PageFlagsBits(cont: bool, zero: bool)
    ensures var flags := PageFlags(cont, zero);
            && !Bit(flags, MEM_SIZE) && !Bit(flags, EOS) && (Bit(flags, COMPRESS) <==> zero)
            && (Bit(flags, PAGE) <==> !zero) && (Bit(flags, CONTINUE) <==> cont)
  {
  }

  lemma LoadWordPage(blocks: seq<Block>, offset: nat, flags: nat, body: seq<Byte>, d: Dest, pageSize: nat)
    requires !Bit(flags, MEM_SIZE) && !Bit(flags, EOS) && (Bit(flags, COMPRESS) || Bit(flags, PAGE))
    ensures var p := HostFrom(blocks, body, offset, flags, d.block);
            LoadWord(blocks, offset, flags, body, d, pageSize)
            == if p.Bad? then Error else LoadPage(p.host, p.block, Bit(flags, COMPRESS), p.rest, d, pageSize, false)
  {
  }

  /** What a receiver makes of the record of page m */
  function Received(theirs: seq<Block>, id: seq<Byte>, m: Msg, cont: bool, d: Dest, tail: seq<Byte>): Turn {
    var p := PageFor(theirs, id, cont, d.block, m.offset, tail);
    if p.Bad? || p.host >= |d.mem| then Error else Next(Dest(d.mem[p.host := m.data], Some(p.block)), tail, false)
  }

  lemma RecordExact(theirs: seq<Block>, id: seq<Byte>, m: Msg, cont: bool, flags: nat, body: seq<Byte>, d: Dest,
                    tail: seq<Byte>, pageSize: nat)
    requires |m.data| == pageSize && !Bit(flags, MEM_SIZE) && !Bit(flags, EOS)
    requires (Bit(flags, COMPRESS) <==> IsZero(m.data)) && (Bit(flags, PAGE) <==> !IsZero(m.data))
    requires HostFrom(theirs, body, m.offset, flags, d.block)
             == PageFor(theirs, id, cont, d.block, m.offset, (if IsZero(m.data) then [0] else m.data) + tail)
    ensures LoadWord(theirs, m.offset, flags, body, d, pageSize) == Received(theirs, id, m, cont, d, tail)
  {
    LoadWordPage(theirs, m.offset, flags, body, d, pageSize);
    var p := HostFrom(theirs, body, m.offset, flags, d.block);
    if p.Page? { BodyExact(m, p.host, p.block, d, tail, pageSize); }
  }

  lemma WordExact(theirs: seq<Block>, id: seq<Byte>, m: Msg, cont: bool, d: Dest, tail: seq<Byte>, pageSize: nat)
    requires |id| < 256 && |m.data| == pageSize
    ensures var zero := IsZero(m.data);
            LoadWord(theirs, m.offset, PageFlags(cont, zero),
                     (if cont then [] else IdBytes(id)) + ((if zero then [0] else m.data) + tail), d, pageSize)
            == Received(theirs, id, m, cont, d, tail)
  {
    var zero := IsZero(m.data);
    var rest := (if zero then [0] else m.data) + tail;
    PageFlagsBits(cont, zero);
    HostOfHeader(theirs, id, cont, m.offset, d.block, zero, rest);
    RecordExact(theirs, id, m, cont, PageFlags(cont, zero), (if cont then [] else IdBytes(id)) + rest, d, tail,
        pageSize);
  }

  lemma LoadTurnOfWord(blocks: seq<Block>, f: seq<Byte>, offset: nat, flags: nat, d: Dest, pageSize: nat)
    requires pageSize > 0 && |f| >= WordSize()
    requires GetBe(f[..WordSize()]) / pageSize == offset && GetBe(f[..WordSize()]) % pageSize == flags
    ensures LoadTurn(blocks, f, d, pageSize) == LoadWord(blocks, offset, flags, f[WordSize()..], d, pageSize)
  {
  }

  lemma HeaderLoaded(theirs: seq<Block>, blocks: seq<Block>, m: Msg, last: Option<nat>, d: Dest, tail: seq<Byte>,
                     total: nat, pageSize: nat)
    requires BlocksOk(blocks, total, pageSize) && MsgOk(blocks, pageSize, m)
    ensures var cont, zero := last == Some(m.block), IsZero(m.data);
            LoadTurn(theirs, Encode(blocks, m, last, pageSize) + tail, d, pageSize)
            == LoadWord(theirs, m.offset, PageFlags(cont, zero),
                        (if cont then [] else IdBytes(blocks[m.block].id)) + ((if zero then [0] else m.data) + tail),
                        d, pageSize)
  {
    var flags := PageFlags(last == Some(m.block), IsZero(m.data));
    EncodeShape(blocks, m, last, tail, pageSize);
    WordSplits(m.offset, flags, blocks[m.block].pages, total, pageSize);
    LoadTurnOfWord(theirs, Encode(blocks, m, last, pageSize) + tail, m.offset, flags, d, pageSize);
  }

  /** What any receiver makes of a page record: an error if it has no block of that name, if the record is for the same
      block as before and there was none, or if the page lies outside the block or outside memory; otherwise exactly
      that page of its own block changes. */
  lemma PageExact(theirs: seq<Block>, blocks: seq<Block>, m: Msg, last: Option<nat>, d: Dest, tail: seq<Byte>,
                  total: nat,
                  pageSize: nat)
    requires BlocksOk(blocks, total, pageSize) && MsgOk(blocks, pageSize, m)
    ensures LoadTurn(theirs, Encode(blocks, m, last, pageSize) + tail, d, pageSize)
            == Received(theirs, blocks[m.block].id, m, last == Some(m.block), d, tail)
  {
    HeaderLoaded(theirs, blocks, m, last, d, tail, total, pageSize);
    WordExact(theirs, blocks[m.block].id, m, last == Some(m.block), d, tail, pageSize);
  }

  /** One page makes the round trip: ram_load stores exactly what ram_save_block sent, where it came
      from, provided both sides agree on the block of the page before. */
  lemma PageRoundTrip(blocks: seq<Block>, m: Msg, last: Option<nat>, d: Dest, tail: seq<Byte>, total: nat,
                      pageSize: nat)
    requires BlocksOk(blocks, total, pageSize) && MsgOk(blocks, pageSize, m) && |d.mem| == total
    requires last.Some? ==> d.block == last
    ensures LoadTurn(blocks, Encode(blocks, m, last, pageSize) + tail, d, pageSize)
            == Next(Dest(d.mem[blocks[m.block].base + m.offset := m.data], Some(m.block)), tail, false)
  {
    PageExact(blocks, blocks, m, last, d, tail, total, pageSize);
    FindBlockByName(blocks, m.block, total, pageSize);
  }

  lemma BodyExact(m: Msg, host: nat, block: nat, d: Dest, tail: seq<Byte>, pageSize: nat)
    requires |m.data| == pageSize
    ensures var zero := IsZero(m.data);
            LoadPage(host, block, zero, (if zero then [0] else m.data) + tail, d, pageSize, false)
            == if host >= |d.mem| then Error else Next(Dest(d.mem[host := m.data], Some(block)), tail, false)
  {
    var zero := IsZero(m.data);
    var body := if zero then [0] else m.data;
    assert (body + tail)[|body|..] == tail && (body + tail)[..|body|] == body;
    if zero {
      assert Filled(0, pageSize) == m.data;
    }
  }

  ghost predicate AllOk(blocks: seq<Block>, pageSize: nat, ms: seq<Msg>)
    ensures AllOk(blocks, pageSize, ms) ==> forall i :: 0 <= i < |ms| ==> ms[i].block < |blocks|
  {
    forall i :: 0 <= i < |ms| ==> MsgOk(blocks, pageSize, ms[i])
  }

  /** The receiver after a run of pages. */
  ghost function After(blocks: seq<Block>, d: Dest, ms: seq<Msg>, pageSize: nat): Dest
    requires AllOk(blocks, pageSize, ms)
  {
    Dest(Store(blocks, d.mem, ms), LastBlock(ms, d.block))
  }

  lemma AfterOneMore(blocks: seq<Block>, d: Dest, ms: seq<Msg>, total: nat, pageSize: nat)
    requires BlocksOk(blocks, total, pageSize) && |d.mem| == total && AllOk(blocks, pageSize, ms) && ms != []
    ensures var n := |ms| - 1;
            var d1, p := After(blocks, d, ms[..n], pageSize), blocks[ms[n].block].base + ms[n].offset;
            p < |d1.mem| && After(blocks, d, ms, pageSize) == Dest(d1.mem[p := ms[n].data], Some(ms[n].block))
  {
    assert MsgOk(blocks, pageSize, ms[|ms| - 1]);
  }

  lemma LoadOneTurn(blocks: seq<Block>, f: seq<Byte>, d: Dest, d': Dest, rest: seq<Byte>, pageSize: nat)
    requires pageSize > 0 && LoadTurn(blocks, f, d, pageSize) == Next(d', rest, false)
    ensures Load(blocks, f, d, pageSize) == Load(blocks, rest, d', pageSize)
  {
  }

  lemma EncodeAllSplits(blocks: seq<Block>, ms: seq<Msg>, last: Option<nat>, tail: seq<Byte>, pageSize: nat)
    requires ms != [] && AllOk(blocks, pageSize, ms)
    ensures var n := |ms| - 1;
            EncodeAll(blocks, ms, last, pageSize) + tail == EncodeAll(blocks, ms[..n], last, pageSize)
              + (Encode(blocks, ms[n], LastBlock(ms[..n], last), pageSize) + tail)
  {
  }

  lemma {:induction false} RunRoundTrip(blocks: seq<Block>, ms: seq<Msg>, last: Option<nat>, d: Dest, tail: seq<Byte>,
                                        total: nat, pageSize: nat)
    requires BlocksOk(blocks, total, pageSize) && |d.mem| == total && AllOk(blocks, pageSize, ms)
    requires last.Some? ==> d.block == last
    ensures Load(blocks, EncodeAll(blocks, ms, last, pageSize) + tail, d, pageSize)
            == Load(blocks, tail, After(blocks, d, ms, pageSize), pageSize)
  {
    if ms == [] {
      assert [] + tail == tail;
    } else {
      var n := |ms| - 1;
      var m, prev, d1 := ms[n], LastBlock(ms[..n], last), After(blocks, d, ms[..n], pageSize);
      var rest := Encode(blocks, m, prev, pageSize) + tail;
      assert Load(blocks, rest, d1, pageSize) == Load(blocks, tail, After(blocks, d, ms, pageSize), pageSize) by {
        PageRoundTrip(blocks, m, prev, d1, tail, total, pageSize);
        AfterOneMore(blocks, d, ms, total, pageSize);
        LoadOneTurn(blocks, rest, d1, After(blocks, d, ms, pageSize), tail, pageSize);
      }
      EncodeAllSplits(blocks, ms, last, tail, pageSize);
      RunRoundTrip(blocks, ms[..n], last, d, rest, total, pageSize);
    }
  }

  /** The end-of-section mark. */
  function EndMark(): seq<Byte> { PutBe(EOS, WordSize()) }

  lemma EndMarkEnds(blocks: seq<Block>, d: Dest, pageSize: nat)
    requires 256 <= pageSize
    ensures LoadTurn(blocks, EndMark(), d, pageSize) == Next(d, [], true)
  {
    assert EOS < Pow256(WordSize());
    BeRoundTrip(EOS, WordSize());
    assert EndMark()[..WordSize()] == EndMark();
    DivIs(EOS, 0, EOS, pageSize);
  }

  /** A whole section makes the round trip. */
  lemma SectionRoundTrip(blocks: seq<Block>, ms: seq<Msg>, last: Option<nat>, d: Dest, total: nat, pageSize: nat)
    requires BlocksOk(blocks, total, pageSize) && |d.mem| == total && AllOk(blocks, pageSize, ms)
    requires last.Some? ==> d.block == last
    ensures Load(blocks, EncodeAll(blocks, ms, last, pageSize) + EndMark(), d, pageSize)
            == Next(After(blocks, d, ms, pageSize), [], true)
  {
    RunRoundTrip(blocks, ms, last, d, EndMark(), total, pageSize);
    EndMarkEnds(blocks, After(blocks, d, ms, pageSize), pageSize);
  }

  // ---- The setup section --------------------------------------------------------------------------------

  /** The block list of the setup section, from block k on */
  function BlockList(blocks: seq<Block>, k: nat): seq<Byte>
    requires k <= |blocks|
    decreases |blocks| - k
  {
    if k == |blocks| then []
    else IdBytes(blocks[k].id) + PutBe(blocks[k].length, WordSize()) + BlockList(blocks, k + 1)
  }

  /** What ram_save_setup writes. */
  function SetupSection(blocks: seq<Block>): seq<Byte> {
    PutBe(TotalBytes(blocks, 0) + MEM_SIZE, WordSize()) + BlockList(blocks, 0) + EndMark()
  }

  lemma LessIsMinus(total: nat, length: nat)
    requires length <= total < Pow256(WordSize())
    ensures Less(total, length) == total - length
  {
    DivIs(total - length, 0, total - length, Pow256(WordSize()));
  }

  /** Block i is the receiver's first one of that name. */
  ghost predicate Namesake(theirs: seq<Block>, id: seq<Byte>, i: nat) {
    i < |theirs| && theirs[i].id == id && forall j :: 0 <= j < i ==> theirs[j].id != id
  }

  /** The receiver has a block of that name, of the same length. */
  ghost predicate Matches(theirs: seq<Block>, b: Block) {
    exists i: nat :: Namesake(theirs, b.id, i) && theirs[i].length == b.length
  }

  lemma MatchesIs(theirs: seq<Block>, b: Block)
    ensures var found := FindBlock(theirs, b.id, 0);
            Matches(theirs, b) <==> found.Some? && theirs[found.value].length == b.length
  {
    var found := FindBlock(theirs, b.id, 0);
    FindBlockIs(theirs, b.id, 0);
    if found.Some? {
      assert Namesake(theirs, b.id, found.value);
      forall i: nat | Namesake(theirs, b.id, i)
        ensures i == found.value
      {
      }
    }
  }

  /** An entry is taken if the receiver has such a block, and refused otherwise. */
  lemma TakeOneEntry(theirs: seq<Block>, b: Block, more: seq<Byte>)
    requires |b.id| < 256 && b.length < Pow256(WordSize())
    ensures TakeEntry(theirs, IdBytes(b.id) + (PutBe(b.length, WordSize()) + more))
            == if Matches(theirs, b) then Some((b.length, more)) else None
  {
    TakeIdBytes(b.id, PutBe(b.length, WordSize()) + more);
    CutAfter(PutBe(b.length, WordSize()), more);
    BeRoundTrip(b.length, WordSize());
    MatchesIs(theirs, b);
  }

  lemma ListStep(blocks: seq<Block>, k: nat, tail: seq<Byte>)
    requires k < |blocks|
    ensures BlockList(blocks, k) + tail
            == IdBytes(blocks[k].id) + (PutBe(blocks[k].length, WordSize()) + (BlockList(blocks, k + 1) + tail))
  {
    Regroup(IdBytes(blocks[k].id), PutBe(blocks[k].length, WordSize()), BlockList(blocks, k + 1), tail);
  }

  lemma LengthPositive(blocks: seq<Block>, k: nat, total: nat, pageSize: nat)
    requires BlocksOk(blocks, total, pageSize) && k < |blocks|
    ensures blocks[k].length > 0
  {
    MulMonotone(1, blocks[k].pages, pageSize);
  }

  ghost predicate AllMatch(theirs: seq<Block>, blocks: seq<Block>, k: nat) {
    forall i :: k <= i < |blocks| ==> Matches(theirs, blocks[i])
  }

  ghost predicate EntryIs(theirs: seq<Block>, b: Block, f: seq<Byte>, rest: seq<Byte>) {
    TakeEntry(theirs, f) == if Matches(theirs, b) then Some((b.length, rest)) else None
  }

  /** f holds the entries from block k on, and then the tail. */
  ghost predicate Lists(theirs: seq<Block>, blocks: seq<Block>, k: nat, f: seq<Byte>, tail: seq<Byte>)
    requires k <= |blocks|
    decreases |blocks| - k
  {
    if k == |blocks| then f == tail
    else exists rest :: EntryIs(theirs, blocks[k], f, rest) && Lists(theirs, blocks, k + 1, rest, tail)
  }

  lemma ListEntry(theirs: seq<Block>, blocks: seq<Block>, k: nat, rest: seq<Byte>, tail: seq<Byte>)
    requires k < |blocks| && |blocks[k].id| < 256 && blocks[k].length < Pow256(WordSize())
    requires rest == BlockList(blocks, k + 1) + tail
    ensures EntryIs(theirs, blocks[k], BlockList(blocks, k) + tail, rest)
  {
    ListStep(blocks, k, tail);
    TakeOneEntry(theirs, blocks[k], rest);
  }

  lemma {:induction false} BlockListLists(theirs: seq<Block>, blocks: seq<Block>, k: nat, tail: seq<Byte>, total: nat,
                                          pageSize: nat)
    requires BlocksOk(blocks, total, pageSize) && k <= |blocks| && TotalBytes(blocks, k) < Pow256(WordSize())
    ensures Lists(theirs, blocks, k, BlockList(blocks, k) + tail, tail)
    decreases |blocks| - k
  {
    if k == |blocks| {
      assert [] + tail == tail;
    } else {
      BlockListLists(theirs, blocks, k + 1, tail, total, pageSize);
      ListEntry(theirs, blocks, k, BlockList(blocks, k + 1) + tail, tail);
    }
  }

  lemma CheckEntry(theirs: seq<Block>, blocks: seq<Block>, k: nat, f: seq<Byte>, tail: seq<Byte>, total: nat,
                   pageSize: nat)
    returns (rest: seq<Byte>)
    requires BlocksOk(blocks, total, pageSize) && k < |blocks| && TotalBytes(blocks, k) < Pow256(WordSize())
    requires Lists(theirs, blocks, k, f, tail)
    ensures Lists(theirs, blocks, k + 1, rest, tail) && TotalBytes(blocks, k + 1) < Pow256(WordSize())
    ensures CheckBlocks(theirs, f, TotalBytes(blocks, k))
            == if Matches(theirs, blocks[k]) then CheckBlocks(theirs, rest, TotalBytes(blocks, k + 1)) else None
  {
    rest :| EntryIs(theirs, blocks[k], f, rest) && Lists(theirs, blocks, k + 1, rest, tail);
    LengthPositive(blocks, k, total, pageSize);
    LessIsMinus(TotalBytes(blocks, k), blocks[k].length);
  }

  /** The list is accepted by exactly the receivers that have all its blocks. */
  lemma {:induction false} BlockListExact(theirs: seq<Block>, blocks: seq<Block>, k: nat, f: seq<Byte>, tail: seq<Byte>,
                                          total: nat, pageSize: nat)
    requires BlocksOk(blocks, total, pageSize) && k <= |blocks| && TotalBytes(blocks, k) < Pow256(WordSize())
    requires Lists(theirs, blocks, k, f, tail)
    ensures CheckBlocks(theirs, f, TotalBytes(blocks, k)) == if AllMatch(theirs, blocks, k) then Some(tail) else None
    decreases |blocks| - k
  {
    if k < |blocks| {
      var rest := CheckEntry(theirs, blocks, k, f, tail, total, pageSize);
      BlockListExact(theirs, blocks, k + 1, rest, tail, total, pageSize);
    }
  }

  /** The pages of the blocks from k on */
  function TotalPages(blocks: seq<Block>, k: nat): nat
    requires k <= |blocks|
    decreases |blocks| - k
  {
    if k == |blocks| then 0 else TotalPages(blocks, k + 1) + blocks[k].pages
  }

  lemma {:induction false} TotalBytesIsPages(blocks: seq<Block>, k: nat, pageSize: nat)
    requires k <= |blocks| && forall i :: 0 <= i < |blocks| ==> blocks[i].length == blocks[i].pages * pageSize
    ensures TotalBytes(blocks, k) == TotalPages(blocks, k) * pageSize
    decreases |blocks| - k
  {
    if k < |blocks| { TotalBytesIsPages(blocks, k + 1, pageSize); }
  }

  lemma SetupShape(blocks: seq<Block>)
    ensures var f := SetupSection(blocks);
            && |f| >= WordSize() && f[..WordSize()] == PutBe(TotalBytes(blocks, 0) + MEM_SIZE, WordSize())
            && f[WordSize()..] == BlockList(blocks, 0) + EndMark()
  {
    var word, list := PutBe(TotalBytes(blocks, 0) + MEM_SIZE, WordSize()), BlockList(blocks, 0);
    assert SetupSection(blocks) == word + (list + EndMark());
    CutAfter(word, list + EndMark());
  }

  lemma SetupNumber(blocks: seq<Block>, total: nat, pageSize: nat)
    requires BlocksOk(blocks, total, pageSize)
    ensures var bytes := TotalBytes(blocks, 0);
            && bytes == TotalPages(blocks, 0) * pageSize
               && GetBe(PutBe(bytes + MEM_SIZE, WordSize())) == bytes + MEM_SIZE
            && (bytes + MEM_SIZE) / pageSize == TotalPages(blocks, 0) && (bytes + MEM_SIZE) % pageSize == MEM_SIZE
  {
    TotalBytesIsPages(blocks, 0, pageSize);
    BeRoundTrip(TotalBytes(blocks, 0) + MEM_SIZE, WordSize());
    DivIs(TotalBytes(blocks, 0) + MEM_SIZE, TotalPages(blocks, 0), MEM_SIZE, pageSize);
  }

  lemma SetupWord(theirs: seq<Block>, blocks: seq<Block>, d: Dest, total: nat, pageSize: nat)
    requires BlocksOk(blocks, total, pageSize)
    ensures LoadTurn(theirs, SetupSection(blocks), d, pageSize)
            == LoadWord(theirs, TotalPages(blocks, 0), MEM_SIZE, BlockList(blocks, 0) + EndMark(), d, pageSize)
  {
    SetupShape(blocks);
    SetupNumber(blocks, total, pageSize);
    LoadTurnOfWord(theirs, SetupSection(blocks), TotalPages(blocks, 0), MEM_SIZE, d, pageSize);
  }

  lemma LoadWordSizes(blocks: seq<Block>, pages: nat, f: seq<Byte>, d: Dest, pageSize: nat)
    ensures var rest := CheckBlocks(blocks, f, pages * pageSize);
            LoadWord(blocks, pages, MEM_SIZE, f, d, pageSize) == if rest.None? then Error
              else Next(d, rest.value, false)
  {
  }

  /** A receiver accepts the setup section if and only if it has, for each of the sender's blocks, one of the same name
      and length; it is not changed by it. */
  lemma SetupExact(theirs: seq<Block>, blocks: seq<Block>, d: Dest, total: nat, pageSize: nat)
    requires BlocksOk(blocks, total, pageSize)
    ensures Load(theirs, SetupSection(blocks), d, pageSize)
            == if AllMatch(theirs, blocks, 0) then Next(d, [], true) else Error
  {
    SetupWord(theirs, blocks, d, total, pageSize);
    SetupNumber(blocks, total, pageSize);
    BlockListLists(theirs, blocks, 0, EndMark(), total, pageSize);
    BlockListExact(theirs, blocks, 0, BlockList(blocks, 0) + EndMark(), EndMark(), total, pageSize);
    LoadWordSizes(theirs, TotalPages(blocks, 0), BlockList(blocks, 0) + EndMark(), d, pageSize);
    if AllMatch(theirs, blocks, 0) {
      LoadOneTurn(theirs, SetupSection(blocks), d, d, EndMark(), pageSize);
      EndMarkEnds(theirs, d, pageSize);
    }
  }

  lemma AllMatchOwn(blocks: seq<Block>, total: nat, pageSize: nat)
    requires BlocksOk(blocks, total, pageSize)
    ensures AllMatch(blocks, blocks, 0)
  {
    forall i | 0 <= i < |blocks|
      ensures Matches(blocks, blocks[i])
    {
      FindBlockByName(blocks, i, total, pageSize);
      MatchesIs(blocks, blocks[i]);
    }
  }

  /** A receiver with the same blocks accepts the setup section. */
  lemma SetupAccepted(blocks: seq<Block>, d: Dest, total: nat, pageSize: nat)
    requires BlocksOk(blocks, total, pageSize)
    ensures Load(blocks, SetupSection(blocks), d, pageSize) == Next(d, [], true)
  {
    SetupExact(blocks, blocks, d, total, pageSize);
    AllMatchOwn(blocks, total, pageSize);
  }

  // ---- Streams that are cut short -------------------------------------------------------------------------

  lemma Slices(f: seq<Byte>, n: nat, i: nat, j: nat)
    requires i <= j <= n <= |f|
    ensures f[..n][i..j] == f[i..j] && f[..n][j..] == f[j..][..n - j] && f[..n][..j] == f[..j]
  {
  }

  lemma TakeIdCut(f: seq<Byte>, n: nat)
    requires n <= |f|
    ensures var whole, cut := TakeId(f), TakeId(f[..n]);
            if whole.Some? && |f| - |whole.value.1| <= n
            then cut == Some((whole.value.0, whole.value.1[..n - (|f| - |whole.value.1|)])) else cut == None
  {
    if n > 0 {
      var length: int := f[0];
      if 1 + length <= n { Slices(f, n, 1, 1 + length); }
    }
  }

  lemma TakeEntryCut(blocks: seq<Block>, f: seq<Byte>, n: nat)
    requires n <= |f|
    ensures var whole, cut := TakeEntry(blocks, f), TakeEntry(blocks, f[..n]);
            if whole.Some? && |f| - |whole.value.1| <= n
            then cut == Some((whole.value.0, whole.value.1[..n - (|f| - |whole.value.1|)])) else cut == None
  {
    TakeIdCut(f, n);
    var id := TakeId(f);
    if id.Some? && |f| - |id.value.1| + WordSize() <= n {
      Slices(id.value.1, n - (|f| - |id.value.1|), 0, WordSize());
    }
  }

  /** What is left of input of which `size` bytes have been cut to n, if `rest` is left of all of it */
  ghost predicate RestCut(whole: Option<seq<Byte>>, cut: Option<seq<Byte>>, size: nat, n: nat) {
    if whole.Some? && |whole.value| <= size && size - |whole.value| <= n <= size
    then cut == Some(whole.value[..n - (size - |whole.value|)]) else cut == None
  }

  /** One entry of whole and of cut input */
  lemma CheckStepCut(blocks: seq<Block>, f: seq<Byte>, g: seq<Byte>, total: nat, n: nat)
    returns (rest: Option<seq<Byte>>, rest': Option<seq<Byte>>, total': nat)
    requires n <= |f| && g == f[..n] && total > 0
    ensures RestCut(rest, rest', |f|, n) && (rest.Some? ==> |rest.value| < |f|)
    ensures CheckBlocks(blocks, f, total) == if rest.None? then None else CheckBlocks(blocks, rest.value, total')
    ensures CheckBlocks(blocks, g, total) == if rest'.None? then None else CheckBlocks(blocks, rest'.value, total')
  {
    TakeEntryCut(blocks, f, n);
    var entry, entry' := TakeEntry(blocks, f), TakeEntry(blocks, g);
    rest := if entry.None? then None else Some(entry.value.1);
    rest' := if entry'.None? then None else Some(entry'.value.1);
    total' := if entry.None? then 0 else Less(total, entry.value.0);
  }

  lemma RestCutBefore(whole: Option<seq<Byte>>, cut: Option<seq<Byte>>, size: nat, n: nat, k: nat)
    requires RestCut(whole, cut, size, n) && n <= size && (whole.Some? ==> |whole.value| <= size)
    ensures RestCut(whole, cut, size + k, n + k)
  {
  }

  lemma {:induction false} CheckBlocksCut(blocks: seq<Block>, f: seq<Byte>, g: seq<Byte>, total: nat, n: nat)
    requires n <= |f| && g == f[..n]
    ensures RestCut(CheckBlocks(blocks, f, total), CheckBlocks(blocks, g, total), |f|, n)
    decreases |f|
  {
    if total > 0 {
      var rest, rest', total' := CheckStepCut(blocks, f, g, total, n);
      if rest'.Some? {
        var used := |f| - |rest.value|;
        CheckBlocksCut(blocks, rest.value, rest'.value, total', n - used);
        RestCutBefore(CheckBlocks(blocks, f, total), CheckBlocks(blocks, g, total), |rest.value|, n - used, used);
      }
    }
  }

  lemma HostFromCut(blocks: seq<Block>, f: seq<Byte>, g: seq<Byte>, offset: nat, flags: nat, block: Option<nat>,
                    n: nat)
    requires n <= |f| && g == f[..n]
    ensures var whole, cut := HostFrom(blocks, f, offset, flags, block), HostFrom(blocks, g, offset, flags, block);
            if whole.Page? && |f| - |whole.rest| <= n
            then cut == whole.(rest := whole.rest[..n - (|f| - |whole.rest|)]) else cut == Bad
  {
    TakeIdCut(f, n);
  }

  /** What a turn makes of input that is cut after n bytes: the same if it gets by with them, and an error if not */
  ghost predicate TurnCut(whole: Turn, cut: Turn, size: nat, n: nat) {
    if whole.Next? && |whole.rest| <= size && size - |whole.rest| <= n <= size
    then cut == whole.(rest := whole.rest[..n - (size - |whole.rest|)]) else cut == Error
  }

  lemma LoadPageCut(host: nat, block: nat, compressed: bool, rest: seq<Byte>, cut: seq<Byte>, d: Dest, pageSize: nat,
                    done: bool, n: nat)
    requires n <= |rest| && cut == rest[..n]
    ensures TurnCut(LoadPage(host, block, compressed, rest, d, pageSize, done),
                    LoadPage(host, block, compressed, cut, d, pageSize, done), |rest|, n)
  {
    var size := if compressed then 1 else pageSize;
    if size <= n { Slices(rest, n, 0, size); }
  }

  lemma LoadRecordCut(blocks: seq<Block>, offset: nat, flags: nat, body: seq<Byte>, cut: seq<Byte>, d: Dest,
                      pageSize: nat, n: nat)
    requires n <= |body| && cut == body[..n]
    ensures TurnCut(LoadRecord(blocks, offset, flags, body, d, pageSize),
                    LoadRecord(blocks, offset, flags, cut, d, pageSize), |body|, n)
  {
    if Bit(flags, COMPRESS) || Bit(flags, PAGE) {
      HostFromCut(blocks, body, cut, offset, flags, d.block, n);
      var p, done := HostFrom(blocks, body, offset, flags, d.block), Bit(flags, EOS);
      if p.Page? && |body| - |p.rest| <= n {
        var used := |body| - |p.rest|;
        LoadPageCut(p.host, p.block, Bit(flags, COMPRESS), p.rest, p.rest[..n - used], d, pageSize, done, n - used);
        TurnCutBefore(LoadPage(p.host, p.block, Bit(flags, COMPRESS), p.rest, d, pageSize, done),
                      LoadPage(p.host, p.block, Bit(flags, COMPRESS), p.rest[..n - used], d, pageSize, done),
                      |p.rest|, n - used, used);
      }
    }
  }

  /** The block list of whole and of cut input */
  lemma ListCut(blocks: seq<Block>, offset: nat, flags: nat, body: seq<Byte>, cut: seq<Byte>, d: Dest,
                pageSize: nat, n: nat)
    returns (rest: Option<seq<Byte>>, rest': Option<seq<Byte>>)
    requires n <= |body| && cut == body[..n]
    ensures RestCut(rest, rest', |body|, n) && (rest.Some? ==> |rest.value| <= |body|)
    ensures LoadWord(blocks, offset, flags, body, d, pageSize)
            == if rest.None? then Error else LoadRecord(blocks, offset, flags, rest.value, d, pageSize)
    ensures LoadWord(blocks, offset, flags, cut, d, pageSize)
            == if rest'.None? then Error else LoadRecord(blocks, offset, flags, rest'.value, d, pageSize)
  {
    if Bit(flags, MEM_SIZE) {
      CheckBlocksCut(blocks, body, cut, offset * pageSize, n);
      rest, rest' := CheckBlocks(blocks, body, offset * pageSize), CheckBlocks(blocks, cut, offset * pageSize);
    } else {
      rest, rest' := Some(body), Some(cut);
    }
  }

  lemma LoadWordCut(blocks: seq<Block>, offset: nat, flags: nat, body: seq<Byte>, cut: seq<Byte>, d: Dest,
                    pageSize: nat, n: nat)
    requires n <= |body| && cut == body[..n]
    ensures TurnCut(LoadWord(blocks, offset, flags, body, d, pageSize),
                    LoadWord(blocks, offset, flags, cut, d, pageSize), |body|, n)
  {
    var rest, rest' := ListCut(blocks, offset, flags, body, cut, d, pageSize, n);
    if rest.Some? {
      var used := |body| - |rest.value|;
      if used <= n {
        LoadRecordCut(blocks, offset, flags, rest.value, rest'.value, d, pageSize, n - used);
        TurnCutBefore(LoadRecord(blocks, offset, flags, rest.value, d, pageSize),
                      LoadRecord(blocks, offset, flags, rest'.value, d, pageSize), |rest.value|, n - used, used);
      }
    }
  }

  /** The same, seen from k bytes before */
  lemma TurnCutBefore(whole: Turn, cut: Turn, size: nat, n: nat, k: nat)
    requires TurnCut(whole, cut, size, n) && n <= size && (whole.Next? ==> |whole.rest| <= size)
    ensures TurnCut(whole, cut, size + k, n + k)
  {
  }

  lemma WordCut(f: seq<Byte>, g: seq<Byte>, n: nat) returns (word: nat, body: seq<Byte>, body': seq<Byte>)
    requires WordSize() <= n <= |f| && g == f[..n]
    ensures word == GetBe(f[..WordSize()]) == GetBe(g[..WordSize()]) && body == f[WordSize()..]
            && body' == g[WordSize()..]
    ensures |body| == |f| - WordSize() && body' == body[..n - WordSize()]
  {
    Slices(f, n, 0, WordSize());
    word, body, body' := GetBe(f[..WordSize()]), f[WordSize()..], g[WordSize()..];
  }

  lemma LoadTurnCut(blocks: seq<Block>, f: seq<Byte>, g: seq<Byte>, d: Dest, pageSize: nat, n: nat)
    requires pageSize > 0 && n <= |f| && g == f[..n]
    ensures TurnCut(LoadTurn(blocks, f, d, pageSize), LoadTurn(blocks, g, d, pageSize), |f|, n)
  {
    var k := WordSize();
    if k <= n {
      var word, body, body' := WordCut(f, g, n);
      LoadWordCut(blocks, word / pageSize, word % pageSize, body, body', d, pageSize, n - k);
      TurnCutBefore(LoadWord(blocks, word / pageSize, word % pageSize, body, d, pageSize),
                    LoadWord(blocks, word / pageSize, word % pageSize, body', d, pageSize), |body|, n - k, k);
      LoadTurnOfWord(blocks, f, word / pageSize, word % pageSize, d, pageSize);
      LoadTurnOfWord(blocks, g, word / pageSize, word % pageSize, d, pageSize);
    }
  }

  /** One turn on whole and on cut input */
  lemma LoadStepCut(blocks: seq<Block>, f: seq<Byte>, g: seq<Byte>, d: Dest, pageSize: nat, n: nat)
    returns (turn: Turn, turn': Turn)
    requires pageSize > 0 && n <= |f| && g == f[..n]
    ensures TurnCut(turn, turn', |f|, n) && (turn.Next? ==> |turn.rest| < |f|)
    ensures Load(blocks, f, d, pageSize)
            == if turn.Error? || turn.done then turn else Load(blocks, turn.rest, turn.d, pageSize)
    ensures Load(blocks, g, d, pageSize)
            == if turn'.Error? || turn'.done then turn' else Load(blocks, turn'.rest, turn'.d, pageSize)
  {
    LoadTurnCut(blocks, f, g, d, pageSize, n);
    turn, turn' := LoadTurn(blocks, f, d, pageSize), LoadTurn(blocks, g, d, pageSize);
  }

  lemma {:induction false} LoadCutAt(blocks: seq<Block>, f: seq<Byte>, g: seq<Byte>, d: Dest, pageSize: nat, n: nat)
    requires pageSize > 0 && n <= |f| && g == f[..n]
    ensures TurnCut(Load(blocks, f, d, pageSize), Load(blocks, g, d, pageSize), |f|, n)
    decreases |f|
  {
    var turn, turn' := LoadStepCut(blocks, f, g, d, pageSize, n);
    if turn'.Next? && !turn.done {
      var used := |f| - |turn.rest|;
      LoadCutAt(blocks, turn.rest, turn'.rest, turn.d, pageSize, n - used);
      TurnCutBefore(Load(blocks, f, d, pageSize), Load(blocks, g, d, pageSize), |turn.rest|, n - used, used);
    }
  }

  /** A stream that is cut short is an error, whatever it holds; and what ram_load makes of a section does not depend on
      what follows it. */
  lemma LoadCut(blocks: seq<Block>, f: seq<Byte>, d: Dest, pageSize: nat, n: nat)
    requires pageSize > 0 && n <= |f|
    ensures TurnCut(Load(blocks, f, d, pageSize), Load(blocks, f[..n], d, pageSize), |f|, n)
  {
    LoadCutAt(blocks, f, f[..n], d, pageSize, n);
  }
}
