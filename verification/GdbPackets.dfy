/** The GDB remote protocol in gdbstub.c: framing packets with a checksum, hexadecimal and escaped encodings, and the
    chunked transfer of target descriptions. */
module GdbPackets {
  import opened Arith
  import opened Bytes

  const MAX_PACKET_LENGTH: nat := 4096

  const DOLLAR: Byte := 0x24
  const HASH: Byte := 0x23
  const STAR: Byte := 0x2a
  const BRACE: Byte := 0x7d
  const PLUS: Byte := 0x2b
  const MINUS: Byte := 0x2d

  // ---- Hexadecimal ------------------------------------------------------------------------------------------

  /** fromhex: characters other than digits count as 0. */
  function FromHex(v: Byte): (r: nat)
    ensures r < 16
  {
    if 0x30 <= v <= 0x39 then v - 0x30
    else if 0x41 <= v <= 0x46 then v - 0x41 + 10
    else if 0x61 <= v <= 0x66 then v - 0x61 + 10
    else 0
  }

  function ToHex(v: nat): (r: Byte)
    requires v < 16
    ensures FromHex(r) == v && r != HASH && r != DOLLAR
  {
    if v < 10 then v + 0x30 else v - 10 + 0x61
  }

  /** The first n bytes of mem in hexadecimal */
  function Hex(mem: seq<Byte>, n: nat): (r: seq<Byte>)
    requires n <= |mem|
    ensures |r| == 2 * n
  {
    if n == 0 then [] else Hex(mem, n - 1) + [ToHex(mem[n - 1] / 16), ToHex(mem[n - 1] % 16)]
  }

  lemma {:induction false} HexAt(mem: seq<Byte>, n: nat, i: nat)
    requires i < n <= |mem|
    ensures Hex(mem, n)[2 * i] == ToHex(mem[i] / 16) && Hex(mem, n)[2 * i + 1] == ToHex(mem[i] % 16)
  {
    if i < n - 1 { HexAt(mem, n - 1, i); }
  }

  /** memtohex */
  method MemToHex(mem: seq<Byte>) returns (buf: seq<Byte>)
    ensures buf == Hex(mem, |mem|)
  {
    buf := [];
    for i := 0 to |mem|
      invariant buf == Hex(mem, i)
    {
      var c := mem[i];
      buf := buf + [ToHex(c / 16), ToHex(c % 16)];
    }
  }

  /** hextomem; it undoes memtohex. */
  method HexToMem(buf: seq<Byte>, len: nat) returns (mem: seq<Byte>)
    requires 2 * len <= |buf|
    ensures |mem| == len && forall i :: 0 <= i < len ==> mem[i] == FromHex(buf[2 * i]) * 16 + FromHex(buf[2 * i + 1])
    ensures forall was: seq<Byte> :: |was| == len && buf == Hex(was, len) ==> mem == was
  {
    mem := [];
    for i := 0 to len
      invariant |mem| == i && forall j :: 0 <= j < i ==> mem[j] == FromHex(buf[2 * j]) * 16 + FromHex(buf[2 * j + 1])
    {
      mem := mem + [FromHex(buf[2 * i]) * 16 + FromHex(buf[2 * i + 1])];
    }
    forall was: seq<Byte> | |was| == len && buf == Hex(was, len)
      ensures mem == was
    {
      forall i | 0 <= i < len
        ensures mem[i] == was[i]
      {
        HexAt(was, len, i);
      }
    }
  }

  // ---- Frames -------------------------------------------------------------------------------------------------

  /** A byte as a signed char */
  function Signed(b: Byte): int { if b < 128 then b else b - 256 }

  function Sum(s: seq<Byte>, n: nat): int
    requires n <= |s|
  {
    if n == 0 then 0 else Sum(s, n - 1) + Signed(s[n - 1])
  }

  /** The sum of the bytes themselves */
  function PlainSum(s: seq<Byte>, n: nat): nat
    requires n <= |s|
  {
    if n == 0 then 0 else PlainSum(s, n - 1) + s[n - 1]
  }

  /** How many of the bytes are negative as a signed char */
  function Negatives(s: seq<Byte>, n: nat): nat
    requires n <= |s|
  {
    if n == 0 then 0 else Negatives(s, n - 1) + if s[n - 1] < 128 then 0 else 1
  }

  lemma {:induction false} SumDiffers(s: seq<Byte>, n: nat)
    requires n <= |s|
    ensures PlainSum(s, n) == Sum(s, n) + 256 * Negatives(s, n)
  {
    if n > 0 { SumDiffers(s, n - 1); }
  }

  /** Whether char is signed makes no difference to the checksum, which is the sum modulo 256. */
  lemma SumIsPlainSum(s: seq<Byte>, n: nat)
    requires n <= |s|
    ensures Sum(s, n) % 256 == PlainSum(s, n) % 256
  {
    SumDiffers(s, n);
  }

  /** What put_packet_binary sends */
  function Frame(payload: seq<Byte>): seq<Byte> {
    var csum := Sum(payload, |payload|);
    [DOLLAR] + payload + [HASH, ToHex(csum / 16 % 16), ToHex(csum % 16)]
  }

  /** put_packet_binary, into last_packet */
  method PutPacketBinary(payload: seq<Byte>) returns (packet: seq<Byte>)
    requires |payload| <= MAX_PACKET_LENGTH
    ensures packet == Frame(payload) && |packet| <= MAX_PACKET_LENGTH + 4
  {
    packet := [DOLLAR] + payload;
    var csum := 0;
    for i := 0 to |payload|
      invariant csum == Sum(payload, i)
    {
      csum := csum + Signed(payload[i]);
    }
    packet := packet + [HASH, ToHex(csum / 16 % 16), ToHex(csum % 16)];
    assert packet == Frame(payload);
  }

  lemma ChecksumMatches(csum: int)
    ensures FromHex(ToHex(csum / 16 % 16)) * 16 + FromHex(ToHex(csum % 16)) == csum % 256
  {
    TwoDigits(csum, csum / 16 / 16, csum / 16 % 16, csum % 16);
  }

  lemma TwoDigits(x: int, q: int, high: int, low: int)
    requires 0 <= high < 16 && 0 <= low < 16 && x == (q * 16 + high) * 16 + low
    ensures x % 256 == FromHex(ToHex(high)) * 16 + FromHex(ToHex(low))
  {
    DivIs(x, q, high * 16 + low, 256);
  }

  datatype RState = Idle | GetLine | Chksum1 | Chksum2

  class GdbState {
    const lineBuf: array<Byte>
    var state: RState
    var index: nat
    var lineCsum: nat
    /** last_packet, while a response to it is awaited */
    var lastPacket: seq<Byte>
    var running: bool
    /** What has been written to the connection, and the packets passed to gdb_handle_packet */
    var out: seq<Byte>
    var handled: seq<seq<Byte>>

    ghost predicate Valid()
      reads this
    {
      lineBuf.Length == MAX_PACKET_LENGTH && index < MAX_PACKET_LENGTH && (state == Chksum2 ==> lineCsum % 16 == 0)
    }

    /** The line so far */
    ghost function Line(): seq<Byte>
      requires Valid()
      reads this, lineBuf
    {
      lineBuf[..index]
    }

    constructor ()
      ensures Valid() && fresh(lineBuf) && state == Idle && lastPacket == [] && !running && out == [] && handled == []
    {
      lineBuf := new Byte[MAX_PACKET_LENGTH](_ => 0);
      state, index, lineCsum, lastPacket, running, out, handled := Idle, 0, 0, [], false, [], [];
    }

    /** The sum over the line */
    method LineSum() returns (csum: int)
      requires Valid()
      ensures csum == Sum(Line(), |Line()|)
    {
      csum := 0;
      for i := 0 to index
        invariant csum == Sum(Line(), i)
      {
        csum := csum + Signed(lineBuf[i]);
      }
    }

    /** What gdb_read_byte does with a byte that it takes as input; gdb_handle_packet is taken to end in RS_IDLE. */
    twostate predicate Accepted(ch: Byte)
      requires old(Valid()) && Valid()
      reads this, lineBuf
    {
      && (old(state) != Chksum2 ==> out == old(out) && handled == old(handled))
      && (old(state) == Idle ==> state == (if ch == DOLLAR then GetLine else Idle) && (ch == DOLLAR ==> Line() == []))
      && (old(state) == GetLine ==>
         state == (if ch == HASH then Chksum1 else if old(index) == MAX_PACKET_LENGTH - 1 then Idle else GetLine))
      && (old(state) == GetLine ==> Line() == if state == GetLine then old(Line()) + [ch] else old(Line()))
      && (old(state) == Chksum1 ==> state == Chksum2 && Line() == old(Line()) && lineCsum == FromHex(ch) * 16)
      && (old(state) == Chksum2 ==>
         state == Idle && Line() == old(Line()) && Judged(Line(), old(lineCsum) + FromHex(ch), old(out), old(handled)))
    }

    /** The state machine of gdb_read_byte */
    method Accept(ch: Byte)
      requires Valid() && !running && lastPacket == []
      modifies this`state, this`index, this`lineCsum, this`out, this`handled, lineBuf
      ensures Valid() && Accepted(ch)
    {
      match state {
        case Idle =>
          if ch == DOLLAR {
            index, state := 0, GetLine;
          }
        case GetLine =>
          if ch == HASH {
            state := Chksum1;
          } else if index >= MAX_PACKET_LENGTH - 1 {
            state := Idle;
          } else {
            lineBuf[index] := ch;
            index := index + 1;
          }
        case Chksum1 =>
          lineBuf[index] := 0;
          lineCsum, state := FromHex(ch) * 16, Chksum2;
        case Chksum2 =>
          var csum := LineSum();
          lineCsum, state := lineCsum + FromHex(ch), Idle;
          if lineCsum != csum % 256 {
            out := out + [MINUS];
          } else {
            out := out + [PLUS];
            handled := handled + [lineBuf[..index]];
          }
      }
    }

    /** A line is acknowledged and handled if its checksum is right, and refused otherwise. */
    ghost predicate Judged(line: seq<Byte>, csum: nat, out0: seq<Byte>, handled0: seq<seq<Byte>>)
      reads this
    {
      if csum == Sum(line, |line|) % 256 then out == out0 + [PLUS] && handled == handled0 + [line]
      else out == out0 + [MINUS] && handled == handled0
    }

    /** gdb_read_byte: while a response to a packet is awaited, '-' sends it again, '+' and the start of a command
        settle it, and nothing but the start of a command is read as input. */
    method ReadByte(ch: Byte)
      requires Valid()
      modifies this, lineBuf
      ensures Valid() && lastPacket == (if ch == PLUS || ch == DOLLAR then [] else old(lastPacket))
      ensures old(lastPacket) != [] && ch != DOLLAR ==>
              state == old(state) && handled == old(handled) && running == old(running)
      ensures old(lastPacket) != [] && ch != DOLLAR ==>
              out == if ch == MINUS then old(out) + old(lastPacket) else old(out)
      ensures (old(lastPacket) == [] || ch == DOLLAR) && old(!running) ==> Accepted(ch) && !running
      ensures (old(lastPacket) == [] || ch == DOLLAR) && old(running) ==>
              !running && state == old(state) && out == old(out) && handled == old(handled)
    {
      if lastPacket != [] {
        if ch == MINUS {
          out := out + lastPacket;
        }
        if ch == PLUS || ch == DOLLAR {
          lastPacket := [];
        }
        if ch != DOLLAR {
          return;
        }
      }
      if running {
        running := false;
      } else {
        Accept(ch);
      }
    }

    /** A frame, byte by byte, with the VM stopped: its payload is handled, and acknowledged. */
    method Receive(payload: seq<Byte>)
      requires Valid() && state == Idle && lastPacket == [] && !running
      requires HASH !in payload && |payload| < MAX_PACKET_LENGTH
      modifies this, lineBuf
      ensures Valid() && state == Idle && lastPacket == [] && !running
      ensures out == old(out) + [PLUS] && handled == old(handled) + [payload]
    {
      var packet := PutPacketBinary(payload);
      ReadByte(packet[0]);
      for i := 0 to |payload|
        invariant Valid() && state == GetLine && lastPacket == [] && !running && out == old(out)
                  && handled == old(handled)
        invariant Line() == payload[..i]
      {
        assert packet[i + 1] == payload[i] && payload[i] in payload;
        ReadByte(packet[i + 1]);
        assert payload[..i] + [payload[i]] == payload[..i + 1];
      }
      assert Line() == payload;
      ReadByte(packet[|payload| + 1]);
      ReadByte(packet[|payload| + 2]);
      ReadByte(packet[|payload| + 3]);
      ChecksumMatches(Sum(payload, |payload|));
    }
  }

  // ---- Escaped data -----------------------------------------------------------------------------------------------

  predicate Special(c: Byte) { c == HASH || c == DOLLAR || c == STAR || c == BRACE }

  /** c ^ 0x20 */
  function Flip(c: Byte): Byte { if c / 32 % 2 == 1 then c - 32 else c + 32 }

  /** Bit 5 is the other one, and all others are the same. */
  lemma FlipIs(c: Byte)
    ensures Flip(c) / 64 == c / 64 && Flip(c) / 32 % 2 != c / 32 % 2 && Flip(c) % 32 == c % 32
  {
    var x: int := c;
    var high, bit, low := x / 32 / 2, x / 32 % 2, x % 32;
    BitFive(x, high, bit, low);
    BitFive(if bit == 1 then x - 32 else x + 32, high, 1 - bit, low);
  }

  lemma BitFive(x: int, high: int, bit: int, low: int)
    requires 0 <= bit < 2 && 0 <= low < 32 && x == (high * 2 + bit) * 32 + low
    ensures x / 64 == high && x / 32 % 2 == bit && x % 32 == low
  {
    DivIs(x, high * 2 + bit, low, 32);
    DivIs(high * 2 + bit, high, bit, 2);
    DivIs(x, high, bit * 32 + low, 64);
  }

  /** The encoding of the first n bytes for 'x' packets */
  function Escaped(mem: seq<Byte>, n: nat): seq<Byte>
    requires n <= |mem|
  {
    if n == 0 then []
    else Escaped(mem, n - 1) + if Special(mem[n - 1]) then [BRACE, Flip(mem[n - 1])] else [mem[n - 1]]
  }

  /** memtox */
  method MemToX(mem: seq<Byte>) returns (buf: seq<Byte>)
    ensures buf == Escaped(mem, |mem|)
  {
    buf := [];
    for i := 0 to |mem|
      invariant buf == Escaped(mem, i)
    {
      var c := mem[i];
      if Special(c) {
        buf := buf + [BRACE, Flip(c)];
      } else {
        buf := buf + [c];
      }
    }
  }

  /** What GDB makes of escaped data: a brace announces one flipped byte. */
  function Unescaped(buf: seq<Byte>, i: nat): seq<Byte>
    requires i <= |buf|
    decreases |buf| - i
  {
    if i == |buf| then []
    else if buf[i] == BRACE && i + 1 < |buf| then [Flip(buf[i + 1])] + Unescaped(buf, i + 2)
    else [buf[i]] + Unescaped(buf, i + 1)
  }

  /** Escaped data has no byte that means something to the protocol, and is at most twice as long. */
  lemma {:induction false} EscapedIsClean(mem: seq<Byte>, n: nat)
    requires n <= |mem|
    ensures n <= |Escaped(mem, n)| <= 2 * n
    ensures HASH !in Escaped(mem, n) && DOLLAR !in Escaped(mem, n) && STAR !in Escaped(mem, n)
  {
    if n > 0 { EscapedIsClean(mem, n - 1); }
  }

  /** The encoding of the first bytes comes first. */
  lemma {:induction false} EscapedPrefix(mem: seq<Byte>, n: nat, k: nat)
    requires k <= n <= |mem|
    ensures Escaped(mem, k) <= Escaped(mem, n)
  {
    if k < n { EscapedPrefix(mem, n - 1, k); }
  }

  /** The encoding of byte k, at its place */
  lemma EscapedAt(mem: seq<Byte>, n: nat, k: nat)
    requires k < n <= |mem|
    ensures var all, at, c := Escaped(mem, n), |Escaped(mem, k)|, mem[k];
            && |Escaped(mem, k + 1)| == at + (if Special(c) then 2 else 1) <= |all|
            && if Special(c) then all[at] == BRACE && all[at + 1] == Flip(c) else all[at] == c
  {
    EscapedPrefix(mem, n, k + 1);
    var all, next, at := Escaped(mem, n), Escaped(mem, k + 1), |Escaped(mem, k)|;
    assert all[at] == next[at] && (Special(mem[k]) ==> all[at + 1] == next[at + 1]);
  }

  /** What the decoder makes of the encoding of one byte, at place i */
  lemma UnescapedOne(buf: seq<Byte>, i: nat, c: Byte)
    requires i < |buf| && if Special(c) then i + 1 < |buf| && buf[i] == BRACE && buf[i + 1] == Flip(c) else buf[i] == c
    ensures Unescaped(buf, i) == [c] + Unescaped(buf, i + if Special(c) then 2 else 1)
  {
  }

  /** The decoder starts each encoded byte of mem where the encoder did. */
  lemma {:induction false} UnescapedFrom(mem: seq<Byte>, n: nat, all: seq<Byte>, k: nat, at: nat)
    requires k <= n <= |mem| && all == Escaped(mem, n) && at == |Escaped(mem, k)|
    ensures at <= |all| && Unescaped(all, at) == mem[k..n]
    decreases n - k
  {
    if k < n {
      EscapedAt(mem, n, k);
      var next := at + if Special(mem[k]) then 2 else 1;
      UnescapedFrom(mem, n, all, k + 1, next);
      UnescapedOne(all, at, mem[k]);
      assert mem[k..n] == [mem[k]] + mem[k + 1..n];
    }
  }

  /** Decoding undoes memtox. */
  lemma EscapeRoundTrip(mem: seq<Byte>)
    ensures Unescaped(Escaped(mem, |mem|), 0) == mem
  {
    UnescapedFrom(mem, |mem|, Escaped(mem, |mem|), 0, 0);
    assert mem[0..|mem|] == mem;
  }

  // ---- Target descriptions -------------------------------------------------------------------------------------

  datatype Reply = E00 | Chunk(last: bool, data: seq<Byte>)

  /** The answer to qXfer:features:read for `len` bytes of the document from `addr` on */
  method ReadFeatures(xml: seq<Byte>, addr: nat, len: nat) returns (reply: Reply)
    ensures reply == E00 <==> addr > |xml|
    ensures reply.Chunk? ==> var n := Min(Min(len, (MAX_PACKET_LENGTH - 5) / 2), |xml| - addr);
              Unescaped(reply.data, 0) == xml[addr..addr + n] && (reply.last <==> addr + n == |xml|)
    ensures reply.Chunk? ==>
            HASH !in reply.data && DOLLAR !in reply.data && STAR !in reply.data && 1 + |reply.data| < MAX_PACKET_LENGTH
  {
    if addr > |xml| {
      return E00;
    }
    var most := Min(len, (MAX_PACKET_LENGTH - 5) / 2);
    var last := !(most < |xml| - addr);
    var part := if last then xml[addr..] else xml[addr..addr + most];
    var data := MemToX(part);
    EscapeRoundTrip(part);
    EscapedIsClean(part, |part|);
    reply := Chunk(last, data);
  }

  /** GDB asks for chunk after chunk, of any sizes from one byte up, until one says that it is the last: together they
      are the whole document. */
  method FetchFeatures(xml: seq<Byte>, sizes: nat -> nat) returns (all: seq<Byte>)
    requires forall i: nat :: sizes(i) > 0
    ensures all == xml
  {
    all := [];
    var i, done := 0, false;
    while !done
      invariant |all| <= |xml| && all == xml[..|all|] && (done ==> |all| == |xml|)
      decreases if done then 0 else 1 + |xml| - |all|
    {
      var reply := ReadFeatures(xml, |all|, sizes(i));
      var part := Unescaped(reply.data, 0);
      assert xml[..|all|] + part == xml[..|all| + |part|];
      all, done, i := all + part, reply.last, i + 1;
    }
  }
}
