/** Batches of writes in block.c: `multiwrite_merge` joins requests that touch, and `multiwrite_cb` reports
    to the callers when the last one is done. */
module MultiWrite {
  import opened Arith
  import opened Bytes

  // ---- Writes and what they leave on the disk ---------------------------------------------------------

  /** A write of some bytes at an address */
  datatype Write = Write(start: nat, data: seq<Byte>) {
    function End(): nat { start + |data| }

    predicate Has(a: nat) { start <= a < End() }
  }

  /** The byte at address a once the first n writes have been done in order, if it was b before. */
  function ByteAfter(ws: seq<Write>, n: nat, a: nat, b: Byte): Byte
    requires n <= |ws|
  {
    if n == 0 then b else if ws[n - 1].Has(a) then ws[n - 1].data[a - ws[n - 1].start] else ByteAfter(ws, n - 1, a, b)
  }

  lemma {:induction false} ByteAfterPrefix(ws: seq<Write>, vs: seq<Write>, n: nat, a: nat, b: Byte)
    requires n <= |ws| && n <= |vs| && forall i :: 0 <= i < n ==> ws[i] == vs[i]
    ensures ByteAfter(ws, n, a, b) == ByteAfter(vs, n, a, b)
  {
    if n > 0 { ByteAfterPrefix(ws, vs, n - 1, a, b); }
  }

  /** Sorted by start; joins[i] says that write i is to be joined to the one before, which it then touches. */
  ghost predicate Orderly(ws: seq<Write>, joins: seq<bool>) {
    && |joins| == |ws| && (ws != [] ==> !joins[0])
    && forall i {:trigger joins[i]} | 1 <= i < |ws| ::
       ws[i - 1].start <= ws[i].start
       && (joins[i] ==> ws[i].start <= ws[i - 1].End())
  }

  /** w joined to acc: acc up to where w starts, then w. */
  function Splice(acc: Write, w: Write): Write
    requires acc.start <= w.start <= acc.End()
  {
    Write(acc.start, acc.data[..w.start - acc.start] + w.data)
  }

  /** What joining makes of the first n writes. */
  function Merge(ws: seq<Write>, joins: seq<bool>, n: nat): (out: seq<Write>)
    requires Orderly(ws, joins) && n <= |ws|
    ensures n > 0 ==> out != [] && out[|out| - 1].start <= ws[n - 1].start && out[|out| - 1].End() == ws[n - 1].End()
  {
    if n == 0 then []
    else
      var out, w, joined := Merge(ws, joins, n - 1), ws[n - 1], joins[n - 1];
      if joined then out[|out| - 1 := Splice(out[|out| - 1], w)] else out + [w]
  }

  /** The first of the writes that make up the last one of Merge(ws, joins, n). */
  function GroupStart(joins: seq<bool>, n: nat): (g: nat)
    requires 1 <= n <= |joins| && !joins[0]
    ensures g < n && (forall i :: g < i < n ==> joins[i]) && !joins[g]
  {
    if joins[n - 1] then GroupStart(joins, n - 1) else n - 1
  }

  /** The byte at a after the merged writes: joined writes hand each address to the last one of them that
      starts at or before it, whether or not that one reaches it. */
  function Joined(ws: seq<Write>, joins: seq<bool>, n: nat, a: nat, b: Byte): Byte
    requires Orderly(ws, joins) && n <= |ws|
  {
    if n == 0 then b
    else
      var w := ws[n - 1];
      if w.Has(a) then w.data[a - w.start]
      else if w.start <= a then Joined(ws, joins, GroupStart(joins, n), a, b)
      else Joined(ws, joins, n - 1, a, b)
  }

  lemma SpliceByte(out: seq<Write>, w: Write, a: nat, b: Byte)
    requires out != [] && out[|out| - 1].start <= w.start <= out[|out| - 1].End()
    ensures var l := |out| - 1;
            var out' := out[l := Splice(out[l], w)];
            && ByteAfter(out', l, a, b) == ByteAfter(out, l, a, b)
            && ByteAfter(out', l + 1, a, b)
               == (if w.Has(a) then w.data[a - w.start] else ByteAfter(out, if a < w.start then l + 1 else l, a, b))
  {
    var l := |out| - 1;
    ByteAfterPrefix(out[l := Splice(out[l], w)], out, l, a, b);
  }

  /** The byte at a after `out`, and before its last write, is what Joined says. */
  ghost predicate Agrees(ws: seq<Write>, joins: seq<bool>, n: nat, a: nat, b: Byte, out: seq<Write>)
    requires Orderly(ws, joins) && 1 <= n <= |ws| && out != []
  {
    && ByteAfter(out, |out|, a, b) == Joined(ws, joins, n, a, b)
    && ByteAfter(out, |out| - 1, a, b) == Joined(ws, joins, GroupStart(joins, n), a, b)
  }

  lemma AgreesJoin(ws: seq<Write>, joins: seq<bool>, n: nat, a: nat, b: Byte, out: seq<Write>)
    requires Orderly(ws, joins) && 2 <= n <= |ws| && joins[n - 1] && out != [] && Agrees(ws, joins, n - 1, a, b, out)
    requires out[|out| - 1].start <= ws[n - 1].start <= out[|out| - 1].End()
    ensures Agrees(ws, joins, n, a, b, out[|out| - 1 := Splice(out[|out| - 1], ws[n - 1])])
  {
    SpliceByte(out, ws[n - 1], a, b);
  }

  lemma AgreesPush(ws: seq<Write>, joins: seq<bool>, n: nat, a: nat, b: Byte, out: seq<Write>)
    requires Orderly(ws, joins) && 1 <= n <= |ws| && !joins[n - 1]
    requires ByteAfter(out, |out|, a, b) == Joined(ws, joins, n - 1, a, b)
    ensures Agrees(ws, joins, n, a, b, out + [ws[n - 1]])
  {
    ByteAfterPrefix(out + [ws[n - 1]], out, |out|, a, b);
  }

  /** Doing the merged writes is what Joined says. */
  lemma {:induction false} MergedByte(ws: seq<Write>, joins: seq<bool>, n: nat, a: nat, b: Byte)
    requires Orderly(ws, joins) && n <= |ws|
    ensures ByteAfter(Merge(ws, joins, n), |Merge(ws, joins, n)|, a, b) == Joined(ws, joins, n, a, b)
    ensures n > 0 ==> Agrees(ws, joins, n, a, b, Merge(ws, joins, n))
  {
    if n > 0 {
      MergedByte(ws, joins, n - 1, a, b);
      if joins[n - 1] {
        AgreesJoin(ws, joins, n, a, b, Merge(ws, joins, n - 1));
      } else {
        AgreesPush(ws, joins, n, a, b, Merge(ws, joins, n - 1));
      }
    }
  }

  // ---- When merging keeps the meaning of a batch --------------------------------------------------------

  /** Writes k up to e are joined and no more, write k reaches a, write e ends before it, and no later write
      reaches a. */
  ghost predicate LostBy(ws: seq<Write>, joins: seq<bool>, n: nat, a: nat, k: nat, e: nat)
    requires |joins| == |ws| && n <= |ws|
  {
    && k < e < n && (forall i :: k < i <= e ==> joins[i]) && (e + 1 == n || !joins[e + 1])
    && ws[k].Has(a) && ws[e].End() <= a && (forall j :: e < j < n ==> !ws[j].Has(a))
  }

  ghost predicate Lost(ws: seq<Write>, joins: seq<bool>, n: nat, a: nat)
    requires |joins| == |ws| && n <= |ws|
  {
    exists k: nat, e: nat :: LostBy(ws, joins, n, a, k, e)
  }

  /** Later writes that do not reach a make no difference there. */
  lemma {:induction false} ByteAfterSkips(ws: seq<Write>, g: nat, n: nat, a: nat, b: Byte)
    requires g <= n <= |ws| && forall j :: g <= j < n ==> !ws[j].Has(a)
    ensures ByteAfter(ws, n, a, b) == ByteAfter(ws, g, a, b)
  {
    if g < n { ByteAfterSkips(ws, g, n - 1, a, b); }
  }

  lemma LostLater(ws: seq<Write>, joins: seq<bool>, g: nat, n: nat, a: nat)
    requires Orderly(ws, joins) && 0 < g < n <= |ws| && Lost(ws, joins, g, a)
             && forall j :: g <= j < n ==> !ws[j].Has(a)
    requires joins[g] ==> a < ws[g].start
    ensures Lost(ws, joins, n, a)
  {
    var k: nat, e: nat :| LostBy(ws, joins, g, a, k, e);
    assert !(e + 1 == g && joins[g]);
    assert LostBy(ws, joins, n, a, k, e);
  }

  lemma {:induction false} NoneLost(ws: seq<Write>, joins: seq<bool>, n: nat, a: nat, b: Byte)
    requires Orderly(ws, joins) && n <= |ws| && !Lost(ws, joins, n, a)
    ensures Joined(ws, joins, n, a, b) == ByteAfter(ws, n, a, b)
  {
    if n == 0 || ws[n - 1].Has(a) {
    } else if ws[n - 1].start <= a {
      var g := GroupStart(joins, n);
      forall k | g <= k < n
        ensures !ws[k].Has(a)
      {
        if ws[k].Has(a) { assert LostBy(ws, joins, n, a, k, n - 1); }
      }
      ByteAfterSkips(ws, g, n, a, b);
      if Lost(ws, joins, g, a) { LostLater(ws, joins, g, n, a); }
      NoneLost(ws, joins, g, a, b);
    } else {
      if Lost(ws, joins, n - 1, a) { LostLater(ws, joins, n - 1, n, a); }
      NoneLost(ws, joins, n - 1, a, b);
    }
  }

  /** Batches of the same addresses and lengths */
  ghost predicate Alike(ws: seq<Write>, vs: seq<Write>) {
    |ws| == |vs| && forall i :: 0 <= i < |ws| ==> ws[i].start == vs[i].start && |ws[i].data| == |vs[i].data|
  }

  /** Doing the merged writes leaves the disk as doing the writes in order does. */
  ghost predicate SameDisk(ws: seq<Write>, joins: seq<bool>)
    requires Orderly(ws, joins)
  {
    var out := Merge(ws, joins, |ws|);
    forall a: nat, b: Byte :: ByteAfter(out, |out|, a, b) == ByteAfter(ws, |ws|, a, b)
  }

  /** vs is the batch ws with ones in write k and zeroes in all others. */
  ghost predicate IsMarked(ws: seq<Write>, vs: seq<Write>, k: nat) {
    && Alike(ws, vs)
    && forall i: nat | i < |vs| :: forall x | 0 <= x < |vs[i].data| :: vs[i].data[x] == if i == k then 1 else 0
  }

  lemma {:induction false} Mark(ws: seq<Write>, k: nat) returns (vs: seq<Write>)
    ensures IsMarked(ws, vs, k)
  {
    vs := [];
    if ws != [] {
      var n := |ws| - 1;
      vs := Mark(ws[..n], k);
      vs := vs + [Write(ws[n].start, seq(|ws[n].data|, _ => if n == k then 1 else 0))];
    }
  }

  lemma {:induction false} MarkedUnseen(vs: seq<Write>, joins: seq<bool>, k: nat, n: nat, a: nat)
    requires Orderly(vs, joins) && IsMarked(vs, vs, k) && n <= k && n <= |vs|
    ensures Joined(vs, joins, n, a, 0) == 0
  {
    if n > 0 {
      if vs[n - 1].Has(a) {
      } else if vs[n - 1].start <= a {
        MarkedUnseen(vs, joins, k, GroupStart(joins, n), a);
      } else {
        MarkedUnseen(vs, joins, k, n - 1, a);
      }
    }
  }

  /** Groups of later writes that do not reach a make no difference there. */
  lemma {:induction false} JoinedSkips(ws: seq<Write>, joins: seq<bool>, g: nat, n: nat, a: nat, b: Byte)
    requires Orderly(ws, joins) && g <= n <= |ws| && (g < n ==> !joins[g])
    requires forall j :: g <= j < n ==> !ws[j].Has(a)
    ensures Joined(ws, joins, n, a, b) == Joined(ws, joins, g, a, b)
  {
    if g < n {
      var g' := GroupStart(joins, n);
      assert g <= g';
      JoinedSkips(ws, joins, g, if ws[n - 1].start <= a then g' else n - 1, a, b);
    }
  }

  /** The last write before e that reaches a */
  lemma {:induction false} LastReach(ws: seq<Write>, k: nat, e: nat, a: nat) returns (last: nat)
    requires k < e <= |ws| && ws[k].Has(a)
    ensures k <= last < e && ws[last].Has(a) && forall j :: last < j < e ==> !ws[j].Has(a)
  {
    if ws[e - 1].Has(a) { last := e - 1; } else { last := LastReach(ws, k, e - 1, a); }
  }

  lemma MarkedSeen(vs: seq<Write>, k: nat, a: nat)
    requires IsMarked(vs, vs, k) && k < |vs| && vs[k].Has(a) && forall j :: k < j < |vs| ==> !vs[j].Has(a)
    ensures ByteAfter(vs, |vs|, a, 0) == 1
  {
    ByteAfterSkips(vs, k + 1, |vs|, a, 0);
  }

  lemma MarkedLost(vs: seq<Write>, joins: seq<bool>, k: nat, e: nat, a: nat)
    requires Orderly(vs, joins) && IsMarked(vs, vs, k) && LostBy(vs, joins, |vs|, a, k, e)
    ensures Joined(vs, joins, |vs|, a, 0) == 0
  {
    JoinedSkips(vs, joins, e + 1, |vs|, a, 0);
    MarkedUnseen(vs, joins, k, GroupStart(joins, e + 1), a);
  }

  lemma AlikeOrderly(ws: seq<Write>, vs: seq<Write>, joins: seq<bool>)
    requires Alike(ws, vs) && Orderly(ws, joins)
    ensures Orderly(vs, joins)
  {
    forall i | 1 <= i < |vs|
      ensures vs[i - 1].start <= vs[i].start && (joins[i] ==> vs[i].start <= vs[i - 1].End())
    {
      var joined := joins[i];
      assert ws[i - 1].End() == vs[i - 1].End();
    }
  }

  /** A lost address shows in some batch with the same addresses and lengths. */
  lemma LossShows(ws: seq<Write>, joins: seq<bool>, a: nat) returns (vs: seq<Write>)
    requires Orderly(ws, joins) && Lost(ws, joins, |ws|, a)
    ensures Alike(ws, vs) && Orderly(vs, joins) && !SameDisk(vs, joins)
  {
    var k: nat, e: nat :| LostBy(ws, joins, |ws|, a, k, e);
    var last := LastReach(ws, k, e, a);
    vs := Mark(ws, last);
    AlikeOrderly(ws, vs, joins);
    assert LostBy(vs, joins, |vs|, a, last, e);
    assert ByteAfter(vs, |vs|, a, 0) == 1 by { MarkedSeen(vs, last, a); }
    assert Joined(vs, joins, |vs|, a, 0) == 0 by { MarkedLost(vs, joins, last, e, a); }
    MergedByte(vs, joins, |vs|, a, 0);
  }

  /** Merging is right for every batch with these addresses and lengths exactly if no address is lost. */
  lemma MergeExact(ws: seq<Write>, joins: seq<bool>)
    requires Orderly(ws, joins)
    ensures (forall vs | Alike(ws, vs) && Orderly(vs, joins) :: SameDisk(vs, joins))
            <==> (forall a: nat :: !Lost(ws, joins, |ws|, a))
  {
    if a: nat :| Lost(ws, joins, |ws|, a) {
      var vs := LossShows(ws, joins, a);
    } else {
      forall vs | Alike(ws, vs) && Orderly(vs, joins)
        ensures SameDisk(vs, joins)
      {
        forall a: nat, b: Byte
          ensures ByteAfter(Merge(vs, joins, |vs|), |Merge(vs, joins, |vs|)|, a, b) == ByteAfter(vs, |vs|, a, b)
        {
          LostAlike(ws, vs, joins, a);
          NoneLost(vs, joins, |vs|, a, b);
          MergedByte(vs, joins, |vs|, a, b);
        }
      }
    }
  }

  lemma LostAlike(ws: seq<Write>, vs: seq<Write>, joins: seq<bool>, a: nat)
    requires Alike(ws, vs) && |joins| == |ws|
    ensures Lost(vs, joins, |vs|, a) ==> Lost(ws, joins, |ws|, a)
  {
    if k: nat, e: nat :| LostBy(vs, joins, |vs|, a, k, e) {
      assert LostBy(ws, joins, |ws|, a, k, e);
    }
  }

  // ---- I/O vectors (util/iov.c) ---------------------------------------------------------------------

  type IoVec = seq<seq<Byte>>

  /** The bytes of v from part i on */
  function FlatFrom(v: IoVec, i: nat): seq<Byte>
    requires i <= |v|
    decreases |v| - i
  {
    if i == |v| then [] else v[i] + FlatFrom(v, i + 1)
  }

  function Flat(v: IoVec): seq<Byte> { FlatFrom(v, 0) }

  /** The parts that hold the first n bytes of v from part i on. */
  function TakeFrom(v: IoVec, i: nat, n: nat): IoVec
    requires i <= |v|
    decreases |v| - i
  {
    if n == 0 || i == |v| then []
    else if v[i] == [] then TakeFrom(v, i + 1, n)
    else [v[i][..Min(|v[i]|, n)]] + TakeFrom(v, i + 1, n - Min(|v[i]|, n))
  }

  function TakeIov(v: IoVec, n: nat): IoVec { TakeFrom(v, 0, n) }

  lemma {:induction false} FlatShift(u: IoVec, v: IoVec, i: nat)
    requires i <= |v|
    ensures FlatFrom(u + v, |u| + i) == FlatFrom(v, i)
    decreases |v| - i
  {
    if i < |v| { FlatShift(u, v, i + 1); }
  }

  lemma {:induction false} FlatConcatFrom(u: IoVec, v: IoVec, i: nat)
    requires i <= |u|
    ensures FlatFrom(u + v, i) == FlatFrom(u, i) + Flat(v)
    decreases |u| - i
  {
    if i == |u| { FlatShift(u, v, 0); } else { FlatConcatFrom(u, v, i + 1); }
  }

  lemma PrefixOfTwo(p: seq<Byte>, q: seq<Byte>, n: nat)
    ensures (p + q)[..Min(n, |p + q|)] == p[..Min(|p|, n)] + q[..Min(n - Min(|p|, n), |q|)]
  {
  }

  lemma {:induction false} FlatTakeFrom(v: IoVec, i: nat, n: nat)
    requires i <= |v|
    ensures Flat(TakeFrom(v, i, n)) == FlatFrom(v, i)[..Min(n, |FlatFrom(v, i)|)]
    decreases |v| - i
  {
    if n > 0 && i < |v| {
      var m := Min(|v[i]|, n);
      FlatTakeFrom(v, i + 1, n - m);
      FlatShift([v[i][..m]], TakeFrom(v, i + 1, n - m), 0);
      PrefixOfTwo(v[i], FlatFrom(v, i + 1), n);
    }
  }

  /** qemu_iovec_concat, from the start of src */
  method Concat(dst: IoVec, src: IoVec, sbytes: nat) returns (r: IoVec)
    ensures r == dst + TakeIov(src, sbytes)
  {
    r := dst;
    var i, done := 0, 0;
    while done < sbytes && i < |src|
      invariant i <= |src| && done <= sbytes
      invariant dst + TakeIov(src, sbytes) == r + TakeFrom(src, i, sbytes - done)
    {
      if 0 < |src[i]| {
        var len := Min(|src[i]|, sbytes - done);
        r := r + [src[i][..len]];
        done := done + len;
      }
      i := i + 1;
    }
  }

  /** The lengths of the parts */
  function Lens(v: IoVec): seq<nat> { seq(|v|, (i: nat) requires i < |v| => |v[i]|) }

  lemma LensConcat(u: IoVec, v: IoVec)
    ensures Lens(u + v) == Lens(u) + Lens(v)
  {
  }

  lemma {:induction false} TakeLens(v: IoVec, w: IoVec, i: nat, n: nat)
    requires Lens(v) == Lens(w) && i <= |v|
    ensures |v| == |w| && Lens(TakeFrom(v, i, n)) == Lens(TakeFrom(w, i, n)) && |FlatFrom(v, i)| == |FlatFrom(w, i)|
    decreases |v| - i
  {
    assert |v| == |Lens(v)| == |w|;
    if i < |v| {
      assert |v[i]| == Lens(v)[i] == |w[i]|;
      var m := Min(|v[i]|, n);
      TakeLens(v, w, i + 1, n - m);
      LensConcat([v[i][..m]], TakeFrom(v, i + 1, n - m));
      LensConcat([w[i][..m]], TakeFrom(w, i + 1, n - m));
    }
  }

  /** Other bytes in parts of the same lengths */
  lemma {:induction false} Split(v: IoVec, i: nat, data: seq<Byte>) returns (w: IoVec)
    requires i <= |v| && |data| == |FlatFrom(v, i)|
    ensures |w| == |v| - i && (forall j :: 0 <= j < |w| ==> |w[j]| == |v[i + j]|) && Flat(w) == data
    decreases |v| - i
  {
    if i == |v| {
      w := [];
    } else {
      var n := |v[i]|;
      var rest := Split(v, i + 1, data[n..]);
      w := [data[..n]] + rest;
      FlatShift([data[..n]], rest, 0);
    }
  }

  // ---- Requests -------------------------------------------------------------------------------------

  /** BlockRequest; nb counts sectors of 512 bytes. */
  datatype Req = Req(sector: nat, nb: nat, qiov: IoVec)

  const IOV_MAX: nat := 1024

  ghost predicate ReqOk(r: Req) { |Flat(r.qiov)| == 512 * r.nb }

  function Image(r: Req): Write { Write(512 * r.sector, Flat(r.qiov)) }

  function Images(rs: seq<Req>): seq<Write> { seq(|rs|, (i: nat) requires i < |rs| => Image(rs[i])) }

  /** A batch as qsort leaves it */
  ghost predicate BatchOk(rs: seq<Req>) {
    && (forall i {:trigger ReqOk(rs[i])} | 0 <= i < |rs| :: ReqOk(rs[i]))
    && Sorted(rs)
  }

  predicate Sorted(rs: seq<Req>) { forall i {:trigger NotBefore(rs, i)} | 1 <= i < |rs| :: NotBefore(rs, i) }

  predicate NotBefore(rs: seq<Req>, i: nat)
    requires 1 <= i < |rs|
  {
    rs[i - 1].sector <= rs[i].sector
  }

  predicate CanJoin(acc: Req, r: Req) { r.sector <= acc.sector + acc.nb && |acc.qiov| + |r.qiov| + 1 <= IOV_MAX }

  function Join(acc: Req, r: Req): Req
    requires acc.sector <= r.sector
  {
    var qiov := JoinIov(acc.qiov, r.qiov, 512 * (r.sector - acc.sector));
    Req(acc.sector, |Flat(qiov)| / 512, qiov)
  }

  /** The first n bytes of u, and v */
  function JoinIov(u: IoVec, v: IoVec, n: nat): IoVec { TakeIov(u, n) + TakeIov(v, |Flat(v)|) }

  lemma FlatJoin(u: IoVec, v: IoVec, n: nat)
    requires n <= |Flat(u)|
    ensures Flat(JoinIov(u, v, n)) == Flat(u)[..n] + Flat(v)
  {
    FlatConcatFrom(TakeIov(u, n), TakeIov(v, |Flat(v)|), 0);
    FlatTakeFrom(u, 0, n);
    FlatTakeFrom(v, 0, |Flat(v)|);
  }

  lemma JoinIsSplice(acc: Req, r: Req)
    requires ReqOk(acc) && ReqOk(r) && acc.sector <= r.sector <= acc.sector + acc.nb
    ensures ReqOk(Join(acc, r)) && Join(acc, r).sector + Join(acc, r).nb == r.sector + r.nb
    ensures Image(Join(acc, r)) == Splice(Image(acc), Image(r))
  {
    FlatJoin(acc.qiov, r.qiov, 512 * (r.sector - acc.sector));
  }

  /** The request that the merge is building after the first n requests. */
  function Acc(rs: seq<Req>, n: nat): (acc: Req)
    requires 1 <= n <= |rs| && Sorted(rs)
    ensures acc.sector <= rs[n - 1].sector
  {
    if n == 1 then rs[0]
    else
      assert NotBefore(rs, n - 1);
      var acc := Acc(rs, n - 1);
      if CanJoin(acc, rs[n - 1]) then Join(acc, rs[n - 1]) else rs[n - 1]
  }

  /** Request i is joined to the one before it. */
  predicate Joins(rs: seq<Req>, i: nat)
    requires i < |rs| && Sorted(rs)
  {
    0 < i && CanJoin(Acc(rs, i), rs[i])
  }

  function JoinsOf(rs: seq<Req>): seq<bool>
    requires Sorted(rs)
  {
    seq(|rs|, (i: nat) requires i < |rs| => Joins(rs, i))
  }

  lemma {:induction false} AccOk(rs: seq<Req>, n: nat)
    requires 1 <= n <= |rs| && BatchOk(rs)
    ensures ReqOk(Acc(rs, n)) && Acc(rs, n).sector + Acc(rs, n).nb == rs[n - 1].sector + rs[n - 1].nb
  {
    assert ReqOk(rs[n - 1]);
    if n > 1 {
      AccOk(rs, n - 1);
      assert NotBefore(rs, n - 1);
      if Joins(rs, n - 1) { JoinIsSplice(Acc(rs, n - 1), rs[n - 1]); }
    }
  }

  /** A request is joined exactly if it starts no later than the one before it ends, and the vectors are not too
      long. */
  lemma JoinsWhenTouching(rs: seq<Req>, i: nat)
    requires BatchOk(rs) && 1 <= i < |rs|
    ensures Joins(rs, i) <==>
            rs[i].sector <= rs[i - 1].sector + rs[i - 1].nb && |Acc(rs, i).qiov| + |rs[i].qiov| + 1 <= IOV_MAX
  {
    AccOk(rs, i);
  }

  /** A merge joins only requests that touch. */
  lemma JoinsOrderly(rs: seq<Req>)
    requires BatchOk(rs)
    ensures Orderly(Images(rs), JoinsOf(rs))
  {
    var ws, joins := Images(rs), JoinsOf(rs);
    forall i | 1 <= i < |ws|
      ensures ws[i - 1].start <= ws[i].start && (joins[i] ==> ws[i].start <= ws[i - 1].End())
    {
      AccOk(rs, i);
      assert NotBefore(rs, i) && ReqOk(rs[i - 1]);
    }
  }

  lemma ImagesPush(rs: seq<Req>, r: Req)
    ensures Images(rs + [r]) == Images(rs) + [Image(r)]
  {
  }

  /** The requests `out` stand for the merged writes. */
  ghost predicate Merged(ws: seq<Write>, joins: seq<bool>, i: nat, out: seq<Req>)
    requires Orderly(ws, joins) && i <= |ws|
  {
    Images(out) == Merge(ws, joins, i)
  }

  lemma MergedJoin(ws: seq<Write>, joins: seq<bool>, i: nat, out: seq<Req>, r: Req)
    requires Orderly(ws, joins) && 1 <= i < |ws| && joins[i] && out != [] && Merged(ws, joins, i, out)
             && ws[i] == Image(r)
    requires var acc := out[|out| - 1]; ReqOk(acc) && ReqOk(r) && acc.sector <= r.sector <= acc.sector + acc.nb
    ensures Merged(ws, joins, i + 1, out[|out| - 1 := Join(out[|out| - 1], r)])
  {
    var l, m := |out| - 1, Merge(ws, joins, i);
    JoinIsSplice(out[l], r);
    assert Images(out[l := Join(out[l], r)]) == m[l := Splice(m[l], ws[i])];
  }

  lemma MergedPush(ws: seq<Write>, joins: seq<bool>, i: nat, out: seq<Req>, r: Req)
    requires Orderly(ws, joins) && i < |ws| && !joins[i] && Merged(ws, joins, i, out) && ws[i] == Image(r)
    ensures Merged(ws, joins, i + 1, out + [r])
  {
    ImagesPush(out, r);
  }

  /** The joined request, as multiwrite_merge builds it. */
  method BuildJoin(acc: Req, r: Req) returns (q: Req)
    requires acc.sector <= r.sector
    ensures q == Join(acc, r)
  {
    var qiov := Concat([], acc.qiov, 512 * (r.sector - acc.sector));
    assert qiov == TakeIov(acc.qiov, 512 * (r.sector - acc.sector));
    qiov := Concat(qiov, r.qiov, |Flat(r.qiov)|);
    q := Req(acc.sector, |Flat(qiov)| / 512, qiov);
  }

  /** What the merge makes of the first n requests. */
  function MergeReqs(rs: seq<Req>, n: nat): (out: seq<Req>)
    requires 1 <= n <= |rs| && Sorted(rs)
    ensures 1 <= |out| <= n && out[|out| - 1] == Acc(rs, n)
  {
    if n == 1 then [rs[0]]
    else
      assert NotBefore(rs, n - 1);
      var out := MergeReqs(rs, n - 1);
      if CanJoin(out[|out| - 1], rs[n - 1]) then out[|out| - 1 := Join(out[|out| - 1], rs[n - 1])]
          else out + [rs[n - 1]]
  }

  lemma MergeReqsJoin(rs: seq<Req>, ws: seq<Write>, joins: seq<bool>, n: nat)
    requires BatchOk(rs) && ws == Images(rs) && joins == JoinsOf(rs) && Orderly(ws, joins) && 1 <= n < |rs|
    requires joins[n] && Merged(ws, joins, n, MergeReqs(rs, n))
    ensures Merged(ws, joins, n + 1, MergeReqs(rs, n + 1))
  {
    AccOk(rs, n);
    assert NotBefore(rs, n) && ReqOk(rs[n]);
    MergedJoin(ws, joins, n, MergeReqs(rs, n), rs[n]);
  }

  lemma {:induction false} MergeReqsIs(rs: seq<Req>, ws: seq<Write>, joins: seq<bool>, n: nat)
    requires BatchOk(rs) && ws == Images(rs) && joins == JoinsOf(rs) && Orderly(ws, joins) && 1 <= n <= |rs|
    ensures Merged(ws, joins, n, MergeReqs(rs, n))
  {
    if n == 1 {
      MergedPush(ws, joins, 0, [], rs[0]);
    } else {
      MergeReqsIs(rs, ws, joins, n - 1);
      if joins[n - 1] {
        MergeReqsJoin(rs, ws, joins, n - 1);
      } else {
        MergedPush(ws, joins, n - 1, MergeReqs(rs, n - 1), rs[n - 1]);
      }
    }
  }

  /** One turn of multiwrite_merge's loop, in place */
  method MergeTurn(reqs: array<Req>, outidx: nat, i: nat) returns (outidx': nat)
    requires outidx < i < reqs.Length && reqs[outidx].sector <= reqs[i].sector
    modifies reqs
    ensures outidx <= outidx' <= i && (forall j :: i < j < reqs.Length ==> reqs[j] == old(reqs[j]))
    ensures var acc, r, out := old(reqs[outidx]), old(reqs[i]), old(reqs[..outidx + 1]);
            reqs[..outidx' + 1] == if CanJoin(acc, r) then out[outidx := Join(acc, r)] else out + [r]
  {
    ghost var out := reqs[..outidx + 1];
    var acc, r := reqs[outidx], reqs[i];
    var merge := r.sector <= acc.sector + acc.nb;
    if |acc.qiov| + |r.qiov| + 1 > IOV_MAX {
      merge := false;
    }
    outidx' := outidx;
    if merge {
      var q := BuildJoin(acc, r);
      reqs[outidx] := q;
      assert reqs[..outidx + 1] == out[outidx := q];
    } else {
      outidx' := outidx + 1;
      reqs[outidx'] := r;
      assert reqs[..outidx' + 1] == out + [r];
    }
  }

  /** The loop of multiwrite_merge */
  method MergeLoop(reqs: array<Req>) returns (num: nat)
    requires reqs.Length > 0 && Sorted(reqs[..])
    modifies reqs
    ensures num <= reqs.Length && reqs[..num] == MergeReqs(old(reqs[..]), reqs.Length)
  {
    ghost var rs := reqs[..];
    var outidx := 0;
    for i := 1 to reqs.Length
      invariant outidx < i && (forall j :: i <= j < reqs.Length ==> reqs[j] == rs[j])
      invariant reqs[..outidx + 1] == MergeReqs(rs, i)
    {
      assert reqs[outidx] == reqs[..outidx + 1][outidx] && NotBefore(rs, i);
      outidx := MergeTurn(reqs, outidx, i);
    }
    num := outidx + 1;
  }

  /** multiwrite_merge, on a batch that has been sorted: the requests it leaves stand for the merged writes. */
  method MergeRequests(reqs: array<Req>) returns (num: nat)
    requires reqs.Length > 0 && BatchOk(reqs[..])
    modifies reqs
    ensures Orderly(Images(old(reqs[..])), JoinsOf(old(reqs[..]))) && num <= reqs.Length
    ensures Images(reqs[..num]) == Merge(Images(old(reqs[..])), JoinsOf(old(reqs[..])), reqs.Length)
  {
    ghost var rs := reqs[..];
    JoinsOrderly(rs);
    MergeReqsIs(rs, Images(rs), JoinsOf(rs), |rs|);
    num := MergeLoop(reqs);
  }

  // ---- Which batches are merged rightly ---------------------------------------------------------------

  /** Requests for the same sectors, in vectors of the same shape */
  ghost predicate SameShape(r: Req, q: Req) { r.sector == q.sector && r.nb == q.nb && Lens(r.qiov) == Lens(q.qiov) }

  ghost predicate SameShapes(rs: seq<Req>, qs: seq<Req>) {
    |rs| == |qs| && forall i {:trigger SameShape(rs[i], qs[i])} | 0 <= i < |rs| :: SameShape(rs[i], qs[i])
  }

  lemma JoinShape(acc: Req, acc': Req, r: Req, r': Req)
    requires SameShape(acc, acc') && SameShape(r, r') && acc.sector <= r.sector
    ensures SameShape(Join(acc, r), Join(acc', r'))
  {
    var n := 512 * (r.sector - acc.sector);
    TakeLens(acc.qiov, acc'.qiov, 0, n);
    TakeLens(r.qiov, r'.qiov, 0, |Flat(r.qiov)|);
    var q, q' := Join(acc, r).qiov, Join(acc', r').qiov;
    LensConcat(TakeIov(acc.qiov, n), TakeIov(r.qiov, |Flat(r.qiov)|));
    LensConcat(TakeIov(acc'.qiov, n), TakeIov(r'.qiov, |Flat(r'.qiov)|));
    TakeLens(q, q', 0, 0);
  }

  lemma {:induction false} AccShape(rs: seq<Req>, qs: seq<Req>, n: nat)
    requires Sorted(rs) && Sorted(qs) && SameShapes(rs, qs) && 1 <= n <= |rs|
    ensures SameShape(Acc(rs, n), Acc(qs, n))
  {
    assert SameShape(rs[n - 1], qs[n - 1]);
    if n > 1 {
      AccShape(rs, qs, n - 1);
      assert NotBefore(rs, n - 1) && |Lens(Acc(rs, n - 1).qiov)| == |Lens(Acc(qs, n - 1).qiov)|
          && |Lens(rs[n - 1].qiov)| == |Lens(qs[n - 1].qiov)|;
      if Joins(rs, n - 1) { JoinShape(Acc(rs, n - 1), Acc(qs, n - 1), rs[n - 1], qs[n - 1]); }
    }
  }

  /** Which requests are joined depends on their shapes alone. */
  lemma JoinsByShape(rs: seq<Req>, qs: seq<Req>)
    requires Sorted(rs) && Sorted(qs) && SameShapes(rs, qs)
    ensures JoinsOf(rs) == JoinsOf(qs)
  {
    forall i: nat | i < |rs|
      ensures Joins(rs, i) == Joins(qs, i)
    {
      if i > 0 {
        AccShape(rs, qs, i);
        assert SameShape(rs[i], qs[i]);
        assert |Lens(Acc(rs, i).qiov)| == |Lens(Acc(qs, i).qiov)| && |Lens(rs[i].qiov)| == |Lens(qs[i].qiov)|;
      }
    }
  }

  /** Writing what multiwrite_merge leaves gives the same disk as writing the batch in order. */
  ghost predicate Right(rs: seq<Req>) {
    BatchOk(rs) && Orderly(Images(rs), JoinsOf(rs)) && SameDisk(Images(rs), JoinsOf(rs))
  }

  lemma ShapeAlike(rs: seq<Req>, qs: seq<Req>)
    requires SameShapes(rs, qs)
    ensures Alike(Images(rs), Images(qs))
  {
    forall i | 0 <= i < |rs|
      ensures |Flat(rs[i].qiov)| == |Flat(qs[i].qiov)| && rs[i].sector == qs[i].sector
    {
      assert SameShape(rs[i], qs[i]);
      TakeLens(rs[i].qiov, qs[i].qiov, 0, 0);
    }
  }

  /** Requests of the same shapes for other bytes */
  lemma {:induction false} Realise(rs: seq<Req>, vs: seq<Write>, n: nat) returns (qs: seq<Req>)
    requires BatchOk(rs) && Alike(Images(rs), vs) && n <= |rs|
    ensures |qs| == n && forall i :: 0 <= i < n ==> SameShape(rs[i], qs[i]) && Image(qs[i]) == vs[i] && ReqOk(qs[i])
  {
    qs := [];
    if n > 0 {
      var r := rs[n - 1];
      assert Images(rs)[n - 1] == Image(r) && ReqOk(r);
      qs := Realise(rs, vs, n - 1);
      var qiov := Split(r.qiov, 0, vs[n - 1].data);
      assert Lens(qiov) == Lens(r.qiov);
      qs := qs + [Req(r.sector, r.nb, qiov)];
    }
  }

  lemma ShapeSorted(rs: seq<Req>, qs: seq<Req>)
    requires Sorted(rs) && SameShapes(rs, qs)
    ensures Sorted(qs)
  {
    forall i | 1 <= i < |qs|
      ensures NotBefore(qs, i)
    {
      assert NotBefore(rs, i) && SameShape(rs[i - 1], qs[i - 1]) && SameShape(rs[i], qs[i]);
    }
  }

  lemma LossIsWrong(rs: seq<Req>, a: nat) returns (qs: seq<Req>)
    requires BatchOk(rs) && Lost(Images(rs), JoinsOf(rs), |rs|, a)
    ensures BatchOk(qs) && SameShapes(rs, qs) && !Right(qs)
  {
    JoinsOrderly(rs);
    var vs := LossShows(Images(rs), JoinsOf(rs), a);
    qs := Realise(rs, vs, |rs|);
    assert Images(qs) == vs;
    ShapeSorted(rs, qs);
    JoinsByShape(rs, qs);
  }

  lemma NoLossIsRight(rs: seq<Req>)
    requires BatchOk(rs) && forall a: nat :: !Lost(Images(rs), JoinsOf(rs), |rs|, a)
    ensures Right(rs)
  {
    JoinsOrderly(rs);
    MergeExact(Images(rs), JoinsOf(rs));
  }

  /** multiwrite_merge is right for all contents of a batch exactly if no address is lost: for no run of joined
      requests does an earlier one reach beyond the end of the last one, unless a later request covers that. */
  lemma MultiwriteExact(rs: seq<Req>)
    requires BatchOk(rs)
    ensures (forall qs | BatchOk(qs) && SameShapes(rs, qs) :: Right(qs)) <==>
            (forall a: nat :: !Lost(Images(rs), JoinsOf(rs), |rs|, a))
  {
    if a: nat :| Lost(Images(rs), JoinsOf(rs), |rs|, a) {
      var qs := LossIsWrong(rs, a);
    } else {
      forall qs | BatchOk(qs) && SameShapes(rs, qs)
        ensures Right(qs)
      {
        JoinsByShape(rs, qs);
        ShapeAlike(rs, qs);
        forall a: nat
          ensures !Lost(Images(qs), JoinsOf(qs), |qs|, a)
        {
          LostAlike(Images(rs), Images(qs), JoinsOf(rs), a);
        }
        NoLossIsRight(qs);
      }
    }
  }

  /** In particular it is right for requests that end in the order in which they start. */
  lemma OrderedEnds(rs: seq<Req>)
    requires BatchOk(rs) && forall i, j :: 0 <= i < j < |rs| ==> rs[i].sector + rs[i].nb <= rs[j].sector + rs[j].nb
    ensures Right(rs)
  {
    var ws := Images(rs);
    forall i | 0 <= i < |rs|
      ensures ws[i].End() == 512 * (rs[i].sector + rs[i].nb)
    {
      assert ReqOk(rs[i]);
    }
    forall a: nat, k: nat, e: nat
      ensures !LostBy(ws, JoinsOf(rs), |rs|, a, k, e)
    {
    }
    NoLossIsRight(rs);
  }

  /** A batch that is not: three sectors from sector 0, and then sector 1. The third sector is never written. */
  lemma ThirdSectorLost(three: seq<Byte>, one: seq<Byte>, b: Byte)
    requires |three| == 1536 && |one| == 512 && three[1024] != b
    ensures var rs := [Req(0, 3, [three]), Req(1, 1, [one])];
            BatchOk(rs) && ByteAfter(Images(rs), 2, 1024, b) == three[1024]
            && var out := Images(MergeReqs(rs, 2)); ByteAfter(out, |out|, 1024, b) == b
  {
    var rs := [Req(0, 3, [three]), Req(1, 1, [one])];
    assert FlatFrom([three], 1) == [] && FlatFrom([one], 1) == [];
    assert Flat([three]) == three && Flat([one]) == one;
    assert forall i {:trigger NotBefore(rs, i)} | 1 <= i < |rs| :: NotBefore(rs, i);
    assert Acc(rs, 1) == rs[0];
    JoinIsSplice(rs[0], rs[1]);
    var q := Join(rs[0], rs[1]);
    assert MergeReqs(rs, 1) == [rs[0]];
    assert MergeReqs(rs, 2) == [q];
    assert Images([q]) == [Image(q)];
  }

  // ---- Completion -----------------------------------------------------------------------------------

  /** The first error among the results, in the order of completion, or 0 */
  function FirstError(rets: seq<int>): int {
    if rets == [] then 0
    else
      var before := FirstError(rets[..|rets| - 1]);
      if before == 0 && rets[|rets| - 1] < 0 then rets[|rets| - 1] else before
  }

  lemma {:induction false} FirstErrorIs(rets: seq<int>)
    ensures FirstError(rets) == 0 <==> forall i :: 0 <= i < |rets| ==> rets[i] >= 0
    ensures FirstError(rets) != 0 ==>
              exists i :: 0 <= i < |rets| && FirstError(rets) == rets[i] < 0 && forall j :: 0 <= j < i ==> rets[j] >= 0
  {
    if rets != [] {
      var n := |rets| - 1;
      FirstErrorIs(rets[..n]);
      assert rets == rets[..n] + [rets[n]];
    }
  }

  /** MultiwriteCB: the callers' callbacks, and which of them have been called with which result */
  class MultiwriteCallbacks {
    const callbacks: seq<nat>
    var error: int
    var numRequests: nat
    var called: seq<(nat, int)>

    constructor (callbacks: seq<nat>, numRequests: nat)
      ensures this.callbacks == callbacks && this.numRequests == numRequests && error == 0 && called == []
    {
      this.callbacks, this.numRequests, this.error, this.called := callbacks, numRequests, 0, [];
    }

    /** multiwrite_user_cb */
    method UserCallbacks()
      requires called == []
      modifies this`called
      ensures |called| == |callbacks| && forall i :: 0 <= i < |called| ==> called[i] == (callbacks[i], error)
    {
      for i := 0 to |callbacks|
        invariant |called| == i && forall j :: 0 <= j < i ==> called[j] == (callbacks[j], error)
      {
        called := called + [(callbacks[i], error)];
      }
    }

    /** multiwrite_cb */
    method Completed(ret: int)
      requires numRequests > 0 && called == []
      modifies this`error, this`numRequests, this`called
      ensures error == (if ret < 0 && old(error) == 0 then ret else old(error)) && numRequests == old(numRequests) - 1
      ensures numRequests > 0 ==> called == []
      ensures numRequests == 0 ==>
              |called| == |callbacks|
              && forall i :: 0 <= i < |called| ==> called[i] == (callbacks[i], error)
    {
      if ret < 0 && error == 0 {
        error := ret;
      }
      numRequests := numRequests - 1;
      if numRequests == 0 {
        UserCallbacks();
      }
    }
  }

  /** Whatever the order of completion: no callback is called before the last request completes; then each one
      is called once, with the first error. */
  method CompleteAll(m: MultiwriteCallbacks, rets: seq<int>)
    requires m.numRequests == |rets| > 0 && m.error == 0 && m.called == []
    modifies m
    ensures |m.called| == |m.callbacks|
            && forall i :: 0 <= i < |m.called| ==> m.called[i] == (m.callbacks[i], FirstError(rets))
  {
    for i := 0 to |rets|
      invariant m.numRequests == |rets| - i && m.error == FirstError(rets[..i])
      invariant i < |rets| ==> m.called == []
      invariant i == |rets| ==>
                |m.called| == |m.callbacks|
                && forall j :: 0 <= j < |m.called| ==> m.called[j] == (m.callbacks[j], m.error)
    {
      m.Completed(rets[i]);
      assert rets[..i + 1][..i] == rets[..i];
    }
    assert rets[..|rets|] == rets;
  }
}
