/** Copy-on-read in block.c: tracked requests serialise everything that touches a cluster while it is
    being copied from the backing file into the image. Requests are coroutines; every method below is
    what one of them does between two points where it may yield. */
module CopyOnRead {
  import opened Arith
  import opened Options

  type Sector = seq<int>

  datatype Range = Range(start: nat, count: nat) {
    function End(): nat { start + count }

    predicate Has(k: nat) { start <= k < End() }
  }

  // ---- Clusters -------------------------------------------------------------------------------------

  function AlignUp(n: nat, c: nat): nat
    requires c > 0
  {
    (n + c - 1) / c * c
  }

  /** bdrv_round_to_clusters; c is 1 for a driver without clusters. */
  function Clusters(r: Range, c: nat): (t: Range)
    requires c > 0
  {
    var start := AlignDown(r.start, c);
    Range(start, AlignUp(r.start - start + r.count, c))
  }

  /** tracked_request_overlaps */
  predicate Overlaps(tracked: Range, r: Range) {
    !(r.start >= tracked.End()) && !(tracked.start >= r.End())
  }

  predicate Apart(a: Range, b: Range) { a.End() <= b.start || b.End() <= a.start }

  /** AlignUp goes to the next multiple of c, AlignDown to the one before. */
  lemma StartsAfter(s: nat, x: nat, c: nat)
    requires c > 0
    ensures AlignDown(s, c) >= x <==> AlignDown(s, c) >= AlignUp(x, c)
    ensures AlignUp(x, c) >= x
  {
    var a, q := s / c, (x + c - 1) / c;
    assert q * c <= x + c - 1 < q * c + c;
    if a < q { MulMonotone(a + 1, q, c); } else { MulMonotone(q, a, c); }
  }

  lemma EndsBefore(e: nat, x: nat, c: nat)
    requires c > 0
    ensures x >= AlignUp(e, c) <==> AlignDown(x, c) >= AlignUp(e, c)
  {
    var a, q := (e + c - 1) / c, x / c;
    assert q * c <= x < q * c + c;
    if a <= q { MulMonotone(a, q, c); } else { MulMonotone(q + 1, a, c); }
  }

  lemma AlignUpShifts(n: nat, q: nat, c: nat)
    requires c > 0
    ensures AlignUp(n + q * c, c) == AlignUp(n, c) + q * c
  {
    var m, r := (n + c - 1) / c, (n + c - 1) % c;
    assert (m + q) * c == m * c + q * c;
    DivIs(n + q * c + c - 1, m + q, r, c);
  }

  /** The rounded range ends at the first cluster boundary from the end of the range on. */
  lemma ClustersEnd(r: Range, c: nat)
    requires c > 0
    ensures Clusters(r, c).End() == AlignUp(r.End(), c)
  {
    AlignUpShifts(r.start - AlignDown(r.start, c) + r.count, r.start / c, c);
  }

  /** A test of one range against the clusters of another is a test for a common cluster. */
  lemma OverlapIsCommonCluster(a: Range, b: Range, c: nat)
    requires c > 0
    ensures Overlaps(b, Clusters(a, c)) <==> !Apart(Clusters(a, c), Clusters(b, c))
  {
    ClustersEnd(a, c);
    ClustersEnd(b, c);
    StartsAfter(a.start, b.End(), c);
    EndsBefore(a.End(), b.start, c);
  }

  lemma WithinClusters(r: Range, c: nat)
    requires c > 0
    ensures Clusters(r, c).start <= r.start && r.End() <= Clusters(r, c).End()
  {
    ClustersEnd(r, c);
    StartsAfter(0, r.End(), c);
  }

  // ---- Requests -------------------------------------------------------------------------------------

  datatype Kind = Read | CopyOnRead | Write(data: seq<Sector>)

  datatype Request = Request(range: Range, kind: Kind)

  /** What a tracked request is doing. Drivers may take the sectors in any order and yield between any two;
      `left` are those still to come. A copy first reads all its clusters, then writes them. */
  datatype Job =
    | Deciding
    | Reading(buf: map<nat, Sector>, left: set<nat>)
    | Copying(buf: map<nat, Sector>, left: set<nat>)
    | Restoring(buf: map<nat, Sector>, left: set<nat>)
    | Writing(done: set<nat>, left: set<nat>)

  datatype Phase = New | Waiting(on: nat) | Woken | Tracked(job: Job) | Done(result: Option<map<nat, Sector>>)

  function Sectors(r: Range): set<nat> { set k: nat | k < r.End() && r.Has(k) }

  /** As many as the request asks for, one after the other */
  lemma {:induction false} SectorsAre(r: Range)
    ensures |Sectors(r)| == r.count && forall k: nat :: k in Sectors(r) <==> r.start <= k < r.start + r.count
    decreases r.count
  {
    if r.count == 0 {
      assert Sectors(r) == {};
    } else {
      var less, last: nat := Range(r.start, r.count - 1), r.start + r.count - 1;
      SectorsAre(less);
      forall k: nat
        ensures k in Sectors(r) <==> k in Sectors(less) + {last}
      {
        assert r.Has(k) <==> less.Has(k) || k == last;
      }
      assert Sectors(r) == Sectors(less) + {last};
    }
  }

  function Content(image: map<nat, Sector>, backing: nat -> Sector, k: nat): Sector {
    if k in image then image[k] else backing(k)
  }

  ghost predicate Faithful(buf: map<nat, Sector>, image: map<nat, Sector>, backing: nat -> Sector) {
    forall k :: k in buf ==> buf[k] == Content(image, backing, k)
  }

  /** The sectors of r are those in hand and those still to come. */
  ghost predicate Covers(buf: map<nat, Sector>, left: set<nat>, r: Range) {
    forall k: nat :: r.Has(k) <==> k in buf || k in left
  }

  ghost predicate Allocated(r: Range, image: map<nat, Sector>) { forall k: nat | r.Has(k) :: k in image }

  /** What holds of a tracked request: in particular, what a copy-on-read request has read so far is still
      what the guest would see. */
  ghost predicate JobOk(req: Request, area: Range, job: Job, image: map<nat, Sector>, backing: nat -> Sector) {
    match job
    case Deciding => req.kind.CopyOnRead?
    case Reading(buf, left) =>
      && !req.kind.Write? && Covers(buf, left, req.range)
      && (req.kind.CopyOnRead? ==> Faithful(buf, image, backing) && Allocated(req.range, image))
    case Copying(buf, left) => req.kind.CopyOnRead? && Covers(buf, left, area) && Faithful(buf, image, backing)
    case Restoring(buf, left) =>
      && req.kind.CopyOnRead? && Covers(buf, {}, area) && Faithful(buf, image, backing)
      && (forall k :: k in left ==> area.Has(k)) && (forall k: nat | area.Has(k) :: k in left || k in image)
    case Writing(done, left) =>
      && req.kind.Write? && |req.kind.data| == req.range.count
      && forall k: nat :: req.range.Has(k) <==> k in done || k in left
  }

  /** A copy-on-read request keeps its clusters to itself. */
  ghost predicate Parted(reqs: seq<Request>, areas: seq<Range>, phase: seq<Phase>, i: nat, j: nat)
    requires i < |reqs| == |areas| == |phase| && j < |reqs|
  {
    phase[i].Tracked? && phase[j].Tracked? && reqs[i].kind.CopyOnRead? ==> Apart(areas[i], areas[j])
  }

  ghost predicate AllParted(reqs: seq<Request>, areas: seq<Range>, phase: seq<Phase>)
    requires |reqs| == |areas| == |phase|
  {
    forall i: nat, j: nat {:trigger Parted(reqs, areas, phase, i, j)} | i < |reqs| && j < |reqs| && i != j ::
        Parted(reqs, areas, phase, i, j)
  }

  ghost predicate AreaOk(reqs: seq<Request>, areas: seq<Range>, c: nat, i: nat)
    requires i < |reqs| == |areas| && c > 0
  {
    areas[i] == Clusters(reqs[i].range, c) && (reqs[i].kind.Write? ==> |reqs[i].kind.data| == reqs[i].range.count)
  }

  /** The tracked list holds the tracked requests, each once. */
  ghost predicate ListOk(phase: seq<Phase>, tracked: seq<nat>) {
    && (forall i, j :: 0 <= i < j < |tracked| ==> tracked[i] != tracked[j])
    && (forall a :: 0 <= a < |tracked| ==> tracked[a] < |phase| && phase[tracked[a]].Tracked?)
    && (forall i: nat | i < |phase| && phase[i].Tracked? :: i in tracked)
  }

  /** Requests wait for tracked requests only. */
  ghost predicate WaitsOk(phase: seq<Phase>) {
    forall i: nat | i < |phase| && phase[i].Waiting? :: phase[i].on < |phase| && phase[phase[i].on].Tracked?
  }

  predicate Started(p: Phase) { !p.New? && !p.Done? }

  /** The copy-on-read requests that have started and not ended. */
  function Flying(reqs: seq<Request>, phase: seq<Phase>): set<nat>
    requires |reqs| == |phase|
  {
    set i: nat | i < |phase| && reqs[i].kind.CopyOnRead? && Started(phase[i])
  }

  lemma FlyingKept(reqs: seq<Request>, phase: seq<Phase>, phase': seq<Phase>)
    requires |reqs| == |phase| == |phase'|
    requires forall i: nat | i < |phase| && reqs[i].kind.CopyOnRead? :: Started(phase[i]) == Started(phase'[i])
    ensures Flying(reqs, phase') == Flying(reqs, phase)
  {
  }

  lemma FlyingAdds(reqs: seq<Request>, phase: seq<Phase>, i: nat, p: Phase)
    requires i < |reqs| == |phase| && reqs[i].kind.CopyOnRead? && !Started(phase[i]) && Started(p)
    ensures |Flying(reqs, phase[i := p])| == |Flying(reqs, phase)| + 1
  {
    assert Flying(reqs, phase[i := p]) == Flying(reqs, phase) + {i};
  }

  lemma FlyingDrops(reqs: seq<Request>, phase: seq<Phase>, i: nat, p: Phase)
    requires i < |reqs| == |phase| && reqs[i].kind.CopyOnRead? && Started(phase[i]) && !Started(p)
    ensures |Flying(reqs, phase[i := p])| == |Flying(reqs, phase)| - 1
  {
    assert Flying(reqs, phase[i := p]) == Flying(reqs, phase) - {i};
  }

  /** The protocol's invariant */
  ghost predicate Serial(reqs: seq<Request>, areas: seq<Range>, phase: seq<Phase>, tracked: seq<nat>)
    requires |reqs| == |areas| == |phase|
  {
    ListOk(phase, tracked) && WaitsOk(phase) && AllParted(reqs, areas, phase)
  }

  /** A request may become tracked when it shares no cluster with a tracked request, if it or the other one
      is a copy-on-read request. */
  lemma SerialBegin(reqs: seq<Request>, areas: seq<Range>, phase: seq<Phase>, tracked: seq<nat>, i: nat, job: Job)
    requires i < |reqs| == |areas| == |phase| && Serial(reqs, areas, phase, tracked) && !phase[i].Tracked?
    requires forall t: nat | t in tracked :: reqs[i].kind.CopyOnRead? || reqs[t].kind.CopyOnRead? ==>
             Apart(areas[i], areas[t])
    ensures Serial(reqs, areas, phase[i := Tracked(job)], [i] + tracked)
  {
    var phase' := phase[i := Tracked(job)];
    forall a: nat, b: nat | a < |reqs| && b < |reqs| && a != b
      ensures Parted(reqs, areas, phase', a, b)
    {
      assert Parted(reqs, areas, phase, a, b);
    }
  }

  /** A request that is not tracked may wait for one that is. */
  lemma SerialWait(reqs: seq<Request>, areas: seq<Range>, phase: seq<Phase>, tracked: seq<nat>, i: nat, on: nat)
    requires i < |reqs| == |areas| == |phase| && Serial(reqs, areas, phase, tracked) && !phase[i].Tracked?
             && on in tracked
    ensures Serial(reqs, areas, phase[i := Waiting(on)], tracked)
  {
    var phase' := phase[i := Waiting(on)];
    forall a: nat, b: nat | a < |reqs| && b < |reqs| && a != b
      ensures Parted(reqs, areas, phase', a, b)
    {
      assert Parted(reqs, areas, phase, a, b);
    }
  }

  lemma SerialWaken(reqs: seq<Request>, areas: seq<Range>, phase: seq<Phase>, tracked: seq<nat>, i: nat)
    requires i < |reqs| == |areas| == |phase| && Serial(reqs, areas, phase, tracked) && !phase[i].Tracked?
    ensures Serial(reqs, areas, phase[i := Woken], tracked)
  {
    var phase' := phase[i := Woken];
    forall a: nat, b: nat | a < |reqs| && b < |reqs| && a != b
      ensures Parted(reqs, areas, phase', a, b)
    {
      assert Parted(reqs, areas, phase, a, b);
    }
  }

  lemma SerialWork(reqs: seq<Request>, areas: seq<Range>, phase: seq<Phase>, tracked: seq<nat>, i: nat, job: Job)
    requires i < |reqs| == |areas| == |phase| && Serial(reqs, areas, phase, tracked) && phase[i].Tracked?
    ensures Serial(reqs, areas, phase[i := Tracked(job)], tracked)
  {
    var phase' := phase[i := Tracked(job)];
    forall a: nat, b: nat | a < |reqs| && b < |reqs| && a != b
      ensures Parted(reqs, areas, phase', a, b)
    {
      assert Parted(reqs, areas, phase, a, b);
    }
  }

  /** QLIST_REMOVE, for the element at place p */
  function Remove(tracked: seq<nat>, p: nat): seq<nat>
    requires p < |tracked|
  {
    tracked[..p] + tracked[p + 1..]
  }

  /** qemu_co_queue_restart_all on the request's queue */
  function Wake(phase: seq<Phase>, on: nat): seq<Phase> {
    seq(|phase|, (j: nat) requires j < |phase| => if phase[j] == Waiting(on) then Woken else phase[j])
  }

  lemma SerialEnd(reqs: seq<Request>, areas: seq<Range>, phase: seq<Phase>, tracked: seq<nat>, p: nat, done: Phase)
    requires p < |tracked| && |reqs| == |areas| == |phase| && Serial(reqs, areas, phase, tracked) && done.Done?
    ensures Serial(reqs, areas, Wake(phase, tracked[p])[tracked[p] := done], Remove(tracked, p))
  {
    var phase', tracked' := Wake(phase, tracked[p])[tracked[p] := done], Remove(tracked, p);
    forall a: nat, b: nat | a < |reqs| && b < |reqs| && a != b
      ensures Parted(reqs, areas, phase', a, b)
    {
      assert Parted(reqs, areas, phase, a, b);
    }
    forall i: nat | i < |phase'| && phase'[i].Tracked?
      ensures i in tracked'
    {
      var a :| 0 <= a < |tracked| && tracked[a] == i;
      assert tracked'[if a < p then a else a - 1] == i;
    }
  }

  /** One request less, if it copies on read */
  lemma FlyingEnd(reqs: seq<Request>, phase: seq<Phase>, i: nat, done: Phase)
    requires i < |reqs| == |phase| && phase[i].Tracked? && done.Done?
    ensures |Flying(reqs, Wake(phase, i)[i := done])| == |Flying(reqs, phase)| - if reqs[i].kind.CopyOnRead? then 1
            else 0
  {
    FlyingKept(reqs, phase, Wake(phase, i));
    if reqs[i].kind.CopyOnRead? {
      FlyingDrops(reqs, Wake(phase, i), i, done);
    } else {
      FlyingKept(reqs, Wake(phase, i), Wake(phase, i)[i := done]);
    }
  }

  ghost predicate JobsOk(reqs: seq<Request>, areas: seq<Range>, phase: seq<Phase>, image: map<nat, Sector>,
                         backing: nat -> Sector)
    requires |reqs| == |areas| == |phase|
  {
    forall i: nat | i < |phase| && phase[i].Tracked? :: JobOk(reqs[i], areas[i], phase[i].job, image, backing)
  }

  /** Writing one sector of request i keeps what every other request relies on. */
  lemma JobsKept(reqs: seq<Request>, areas: seq<Range>, phase: seq<Phase>, c: nat, image: map<nat, Sector>,
                 backing: nat -> Sector,
                 i: nat, k: nat, data: Sector)
    requires i < |reqs| == |areas| == |phase| && c > 0 && AllParted(reqs, areas, phase)
             && JobsOk(reqs, areas, phase, image, backing)
    requires forall j: nat {:trigger AreaOk(reqs, areas, c, j)} | j < |reqs| :: AreaOk(reqs, areas, c, j)
    requires phase[i].Tracked? && areas[i].Has(k)
    ensures forall j: nat | j < |phase| && j != i && phase[j].Tracked? ::
            JobOk(reqs[j], areas[j], phase[j].job, image[k := data], backing)
  {
    forall j: nat | j < |phase| && j != i && phase[j].Tracked?
      ensures JobOk(reqs[j], areas[j], phase[j].job, image[k := data], backing)
    {
      assert Parted(reqs, areas, phase, j, i) && AreaOk(reqs, areas, c, j);
      if reqs[j].kind.CopyOnRead? && !phase[j].job.Deciding? {
        WithinClusters(reqs[j].range, c);
        assert forall q :: q in phase[j].job.buf ==> areas[j].Has(q) && q != k;
      }
    }
  }

  // ---- The steps of a request -----------------------------------------------------------------------

  function FirstJob(req: Request): Job {
    match req.kind
    case CopyOnRead => Deciding
    case Read => Reading(map[], Sectors(req.range))
    case Write(_) => Writing({}, Sectors(req.range))
  }

  /** A job that writes, after sector k */
  function Minus(job: Job, k: nat): Job
    requires job.Restoring? || job.Writing?
  {
    match job
    case Restoring(buf, left) => Restoring(buf, left - {k})
    case Writing(done, left) => Writing(done + {k}, left - {k})
  }

  /** The sectors that a write request has written. */
  function WrittenBy(req: Request, p: Phase): set<nat> {
    if !req.kind.Write? then {}
    else if p.Tracked? && p.job.Writing? then p.job.done
    else if p.Done? && p.result.Some? then Sectors(req.range)
    else {}
  }

  /** What copy-on-read requests have brought in when they end well is there for good. */
  ghost predicate CopiesKept(reqs: seq<Request>, phase: seq<Phase>, image: map<nat, Sector>)
    requires |reqs| == |phase|
  {
    forall i: nat | i < |phase| && reqs[i].kind.CopyOnRead? && phase[i].Done? && phase[i].result.Some? ::
        Allocated(reqs[i].range, image)
  }

  lemma JobsEnd(reqs: seq<Request>, areas: seq<Range>, phase: seq<Phase>, image: map<nat, Sector>,
                backing: nat -> Sector, i: nat, done: Phase)
    requires i < |reqs| == |areas| == |phase| && done.Done? && JobsOk(reqs, areas, phase, image, backing)
             && CopiesKept(reqs, phase, image)
    requires reqs[i].kind.CopyOnRead? && done.result.Some? ==> Allocated(reqs[i].range, image)
    ensures JobsOk(reqs, areas, Wake(phase, i)[i := done], image, backing)
            && CopiesKept(reqs, Wake(phase, i)[i := done], image)
  {
  }

  datatype Action =
    | Start(i: nat)
    | Resume(i: nat)
    | Decide(i: nat, whole: bool)
    | ReadSector(i: nat, k: nat)
    | Turn(i: nat)
    | WriteSector(i: nat, k: nat)
    | End(i: nat)
    | Fail(i: nat)

  // ---- What an action does to the requests ------------------------------------------------------------

  /** What a request has read so far, or returned */
  function Buffer(p: Phase): map<nat, Sector> {
    match p
    case Tracked(Reading(buf, _)) => buf
    case Tracked(Copying(buf, _)) => buf
    case Tracked(Restoring(buf, _)) => buf
    case Done(Some(result)) => result
    case _ => map[]
  }

  /** A request does its action: it starts with nothing read, and what it has read more afterwards is what the guest
      sees at that moment. One that ends well returns all it was asked for. */
  ghost predicate Goes(req: Request, p: Phase, p': Phase, a: Action, image: map<nat, Sector>, backing: nat -> Sector) {
    && !p.Done? && !p'.New? && (p.New? <==> a.Start?) && (p'.Done? <==> a.End? || a.Fail?)
    && (forall k :: k in Buffer(p') ==>
          || (k in Buffer(p) && Buffer(p')[k] == Buffer(p)[k])
          || (a.ReadSector? && Buffer(p')[k] == Content(image, backing, k)))
    && (a.End? ==> p'.result.Some?)
    && (a.End? && !req.kind.Write? ==> forall k: nat :: k in p'.result.value <==> req.range.Has(k))
    && (a.Fail? ==> p' == Done(None))
  }

  /** The others at most stop waiting. */
  predicate Stays(p: Phase, p': Phase) { p' == p || (p.Waiting? && p' == Woken) }

  ghost predicate Moves(reqs: seq<Request>, phase: seq<Phase>, phase': seq<Phase>, a: Action, image: map<nat, Sector>,
                        backing: nat -> Sector)
    requires |reqs| == |phase| == |phase'|
  {
    && a.i < |reqs| && Goes(reqs[a.i], phase[a.i], phase'[a.i], a, image, backing)
    && forall j: nat {:trigger phase'[j]} | j < |phase| && j != a.i :: Stays(phase[j], phase'[j])
  }

  // ---- Progress -------------------------------------------------------------------------------------

  /** How much a request still has to do. */
  function Weight(req: Request, area: Range, p: Phase): nat {
    var n, r := |Sectors(area)|, |Sectors(req.range)|;
    match p
    case New => 2 * n + r + 7
    case Woken => 2 * n + r + 6
    case Waiting(_) => 2 * n + r + 5
    case Tracked(job) => (
      match job
      case Deciding => 2 * n + r + 4
      case Copying(_, left) => n + |left| + 3
      case _ => |job.left| + 2)
    case Done(_) => 0
  }

  ghost function Work(reqs: seq<Request>, areas: seq<Range>, phase: seq<Phase>, n: nat): nat
    requires n <= |reqs| == |areas| == |phase|
  {
    if n == 0 then 0 else Work(reqs, areas, phase, n - 1) + Weight(reqs[n - 1], areas[n - 1], phase[n - 1])
  }

  ghost function Unfinished(phase: seq<Phase>, n: nat): nat
    requires n <= |phase|
  {
    if n == 0 then 0 else Unfinished(phase, n - 1) + if phase[n - 1].Done? then 0 else 1
  }

  lemma {:induction false} WorkUpdate(reqs: seq<Request>, areas: seq<Range>, phase: seq<Phase>, n: nat, i: nat,
                                      p: Phase)
    requires i < |reqs| == |areas| == |phase| && n <= |reqs|
    ensures Work(reqs, areas, phase[i := p], n)
            == Work(reqs, areas, phase, n) + if i < n
              then Weight(reqs[i], areas[i], p) - Weight(reqs[i], areas[i], phase[i]) else 0
  {
    if n > 0 { WorkUpdate(reqs, areas, phase, n - 1, i, p); }
  }

  /** Requests that have ended in one of the two are those that have ended in the other, but for i. */
  lemma {:induction false} UnfinishedUpdate(phase: seq<Phase>, phase': seq<Phase>, n: nat, i: nat)
    requires n <= |phase| == |phase'| && i < |phase| && !phase[i].Done?
    requires forall j: nat | j < |phase| && j != i :: phase[j].Done? == phase'[j].Done?
    ensures Unfinished(phase', n) == Unfinished(phase, n) - if i < n && phase'[i].Done? then 1 else 0
  {
    if n > 0 { UnfinishedUpdate(phase, phase', n - 1, i); }
  }

  ghost function Rank(reqs: seq<Request>, areas: seq<Range>, phase: seq<Phase>): (nat, nat)
    requires |reqs| == |areas| == |phase|
  {
    (Unfinished(phase, |phase|), Work(reqs, areas, phase, |phase|))
  }

  ghost predicate Lower(a: (nat, nat), b: (nat, nat)) { a.0 < b.0 || (a.0 == b.0 && a.1 < b.1) }

  lemma RankWork(reqs: seq<Request>, areas: seq<Range>, phase: seq<Phase>, i: nat, p: Phase)
    requires i < |reqs| == |areas| == |phase| && !p.Done? && !phase[i].Done?
    requires Weight(reqs[i], areas[i], p) < Weight(reqs[i], areas[i], phase[i])
    ensures Lower(Rank(reqs, areas, phase[i := p]), Rank(reqs, areas, phase))
  {
    WorkUpdate(reqs, areas, phase, |phase|, i, p);
    UnfinishedUpdate(phase, phase[i := p], |phase|, i);
  }

  lemma RankEnd(reqs: seq<Request>, areas: seq<Range>, phase: seq<Phase>, i: nat, p: Phase)
    requires i < |reqs| == |areas| == |phase| && p.Done? && !phase[i].Done?
    ensures Lower(Rank(reqs, areas, Wake(phase, i)[i := p]), Rank(reqs, areas, phase))
  {
    UnfinishedUpdate(phase, Wake(phase, i)[i := p], |phase|, i);
  }

  class BlockDevice {
    /** Sectors to a cluster, the requests, and each one's range rounded to clusters */
    const c: nat
    const reqs: seq<Request>
    const areas: seq<Range>
    const backing: nat -> Sector
    /** The allocated sectors */
    var image: map<nat, Sector>
    /** Where each request is; tracked_requests; copy_on_read_in_flight */
    var phase: seq<Phase>
    var tracked: seq<nat>
    var inFlight: nat

    ghost predicate Valid()
      reads this
    {
      && c > 0 && |reqs| == |areas| == |phase|
      && (forall i: nat {:trigger AreaOk(reqs, areas, c, i)} | i < |reqs| :: AreaOk(reqs, areas, c, i))
      && Serial(reqs, areas, phase, tracked)
      && inFlight == |Flying(reqs, phase)|
      && JobsOk(reqs, areas, phase, image, backing) && CopiesKept(reqs, phase, image)
    }

    /** What the guest sees. */
    function Visible(k: nat): Sector
      reads this
    {
      Content(image, backing, k)
    }

    function By(i: nat): set<nat>
      requires i < |reqs| == |phase|
      reads this
    {
      WrittenBy(reqs[i], phase[i])
    }

    constructor (c: nat, reqs: seq<Request>, image: map<nat, Sector>, backing: nat -> Sector)
      requires c > 0
      requires forall i :: 0 <= i < |reqs| && reqs[i].kind.Write? ==> |reqs[i].kind.data| == reqs[i].range.count
      ensures Valid() && this.c == c && this.reqs == reqs && this.image == image && this.backing == backing
      ensures forall i :: 0 <= i < |reqs| ==> phase[i] == New
    {
      this.c, this.reqs, this.image, this.backing := c, reqs, image, backing;
      areas := seq(|reqs|, (i: nat) requires i < |reqs| => Clusters(reqs[i].range, c));
      phase := seq(|reqs|, _ => New);
      tracked, inFlight := [], 0;
      new;
      assert Flying(reqs, phase) == {};
    }

    /** The first tracked request that the search of wait_for_overlapping_requests meets. */
    method FindOverlap(i: nat) returns (on: Option<nat>)
      requires Valid() && i < |reqs| && !phase[i].Tracked?
      ensures on.Some? ==> on.value in tracked && on.value != i && Overlaps(reqs[on.value].range, areas[i])
      ensures on.None? ==> forall t: nat | t in tracked :: !Overlaps(reqs[t].range, areas[i])
    {
      for j := 0 to |tracked|
        invariant forall a :: 0 <= a < j ==> !Overlaps(reqs[tracked[a]].range, areas[i])
      {
        if Overlaps(reqs[tracked[j]].range, areas[i]) {
          return Some(tracked[j]);
        }
      }
      on := None;
    }

    /** tracked_request_begin */
    method Begin(i: nat)
      requires Valid() && i < |reqs| && phase[i] == Woken
      requires forall t: nat | t in tracked :: reqs[i].kind.CopyOnRead? || reqs[t].kind.CopyOnRead? ==>
               Apart(areas[i], areas[t])
      modifies this`phase, this`tracked
      ensures Valid() && phase == old(phase)[i := Tracked(FirstJob(reqs[i]))] && tracked == [i] + old(tracked)
    {
      assert AreaOk(reqs, areas, c, i);
      SerialBegin(reqs, areas, phase, tracked, i, FirstJob(reqs[i]));
      FlyingKept(reqs, phase, phase[i := Tracked(FirstJob(reqs[i]))]);
      phase := phase[i := Tracked(FirstJob(reqs[i]))];
      tracked := [i] + tracked;
    }

    /** One pass of wait_for_overlapping_requests and, if there is nothing to wait for, tracked_request_begin */
    method Enter(i: nat) returns (on: Option<nat>)
      requires Valid() && i < |reqs| && phase[i] == Woken
      modifies this`phase, this`tracked
      ensures Valid()
      ensures on.Some? ==> on.value in tracked && on.value != i && Overlaps(reqs[on.value].range, areas[i])
      ensures on.Some? ==> phase == old(phase)[i := Waiting(on.value)] && tracked == old(tracked)
      ensures on.None? ==> phase == old(phase)[i := Tracked(FirstJob(reqs[i]))] && tracked == [i] + old(tracked)
      ensures on.None? ==> forall t: nat | t in old(tracked) :: !Overlaps(reqs[t].range, areas[i])
    {
      on := FindOverlap(i);
      if on.Some? {
        SerialWait(reqs, areas, phase, tracked, i, on.value);
        FlyingKept(reqs, phase, phase[i := Waiting(on.value)]);
        phase := phase[i := Waiting(on.value)];
      } else {
        forall t: nat | t in tracked
          ensures Apart(areas[i], areas[t])
        {
          assert AreaOk(reqs, areas, c, i) && AreaOk(reqs, areas, c, t);
          OverlapIsCommonCluster(reqs[i].range, reqs[t].range, c);
        }
        Begin(i);
      }
    }

    /** A request comes in, and copy-on-read requests are counted. */
    method Arrive(i: nat)
      requires Valid() && i < |reqs| && phase[i] == New
      modifies this`phase, this`inFlight
      ensures Valid() && phase == old(phase)[i := Woken]
      ensures inFlight == old(inFlight) + if reqs[i].kind.CopyOnRead? then 1 else 0
    {
      if reqs[i].kind.CopyOnRead? {
        inFlight := inFlight + 1;
        FlyingAdds(reqs, phase, i, Woken);
      } else {
        FlyingKept(reqs, phase, phase[i := Woken]);
      }
      SerialWaken(reqs, areas, phase, tracked, i);
      phase := phase[i := Woken];
    }

    /** The start of bdrv_co_do_readv and bdrv_co_do_writev */
    method Start(i: nat) returns (p: Phase)
      requires Valid() && i < |reqs| && phase[i] == New
      modifies this`phase, this`tracked, this`inFlight
      ensures Valid() && phase == old(phase)[i := p] && (p.Waiting? || p == Tracked(FirstJob(reqs[i])))
    {
      ghost var phase0 := phase;
      Arrive(i);
      if inFlight > 0 {
        var on := Enter(i);
      } else {
        forall t: nat | t in tracked
          ensures !reqs[i].kind.CopyOnRead? && !reqs[t].kind.CopyOnRead?
        {
          assert i !in Flying(reqs, phase) && t !in Flying(reqs, phase);
        }
        Begin(i);
      }
      p := phase[i];
      assert phase == phase0[i := p];
    }

    /** A request changes from one job to the next. */
    method SetJob(i: nat, job: Job)
      requires Valid() && i < |reqs| && phase[i].Tracked? && JobOk(reqs[i], areas[i], job, image, backing)
      modifies this`phase
      ensures Valid() && phase == old(phase)[i := Tracked(job)]
    {
      SerialWork(reqs, areas, phase, tracked, i, job);
      FlyingKept(reqs, phase, phase[i := Tracked(job)]);
      phase := phase[i := Tracked(job)];
    }

    /** bdrv_is_allocated decides between a plain read and a copy of whole clusters; `whole` is whether its answer is
        for all sectors at once. */
    method Decide(i: nat, whole: bool)
      requires Valid() && i < |reqs| && phase[i] == Tracked(Deciding)
      modifies this`phase
      ensures Valid()
      ensures var job := if whole && Sectors(reqs[i].range) <= image.Keys then Reading(map[], Sectors(reqs[i].range))
                         else Copying(map[], Sectors(areas[i]));
              phase == old(phase)[i := Tracked(job)]
      ensures Weight(reqs[i], areas[i], phase[i]) < old(Weight(reqs[i], areas[i], phase[i]))
    {
      if whole && Sectors(reqs[i].range) <= image.Keys {
        SetJob(i, Reading(map[], Sectors(reqs[i].range)));
      } else {
        SetJob(i, Copying(map[], Sectors(areas[i])));
      }
    }

    /** The driver reads a sector. */
    method ReadSector(i: nat, k: nat)
      requires Valid() && i < |reqs| && phase[i].Tracked? && (phase[i].job.Reading? || phase[i].job.Copying?)
      requires k in phase[i].job.left
      modifies this`phase
      ensures Valid()
      ensures var job := old(phase[i].job);
              phase == old(phase)[i := Tracked(job.(buf := job.buf[k := Visible(k)], left := job.left - {k}))]
      ensures Weight(reqs[i], areas[i], phase[i]) < old(Weight(reqs[i], areas[i], phase[i]))
    {
      var job := phase[i].job;
      SetJob(i, job.(buf := job.buf[k := Visible(k)], left := job.left - {k}));
    }

    /** All clusters are in the bounce buffer, and the driver is told to write them. */
    method Turn(i: nat)
      requires Valid() && i < |reqs| && phase[i].Tracked? && phase[i].job.Copying? && phase[i].job.left == {}
      modifies this`phase
      ensures Valid() && phase == old(phase)[i := Tracked(Restoring(old(phase[i].job.buf), Sectors(areas[i])))]
      ensures Weight(reqs[i], areas[i], phase[i]) < old(Weight(reqs[i], areas[i], phase[i]))
    {
      SetJob(i, Restoring(phase[i].job.buf, Sectors(areas[i])));
    }

    /** The sector that a request is about to write. */
    function Payload(i: nat, k: nat): Sector
      requires Valid() && i < |reqs| && phase[i].Tracked? && (phase[i].job.Restoring? || phase[i].job.Writing?)
      requires k in phase[i].job.left
      reads this
    {
      assert JobOk(reqs[i], areas[i], phase[i].job, image, backing);
      if phase[i].job.Restoring? then phase[i].job.buf[k] else reqs[i].kind.data[k - reqs[i].range.start]
    }

    /** The driver writes a sector: a guest's write shows, the write of a copy does not. */
    method WriteSector(i: nat, k: nat)
      requires Valid() && i < |reqs| && phase[i].Tracked? && (phase[i].job.Restoring? || phase[i].job.Writing?)
      requires k in phase[i].job.left
      modifies this`phase, this`image
      ensures Valid() && image == old(image)[k := old(Payload(i, k))]
      ensures var job := old(phase[i].job); phase == old(phase)[i := Tracked(Minus(job, k))]
      ensures old(phase[i].job.Restoring?) ==> forall q: nat :: Visible(q) == old(Visible(q))
    {
      var job, data := phase[i].job, Payload(i, k);
      assert JobOk(reqs[i], areas[i], job, image, backing) && AreaOk(reqs, areas, c, i);
      WithinClusters(reqs[i].range, c);
      JobsKept(reqs, areas, phase, c, image, backing, i, k, data);
      image := image[k := data];
      assert JobOk(reqs[i], areas[i], job, image, backing);
      SetJob(i, Minus(job, k));
    }

    /** tracked_request_end and the end of the request; it returns what it has read, or an error. */
    method Leave(i: nat, result: Option<map<nat, Sector>>)
      requires Valid() && i < |reqs| && phase[i].Tracked?
      requires reqs[i].kind.CopyOnRead? && result.Some? ==> Allocated(reqs[i].range, image)
      modifies this`phase, this`tracked, this`inFlight
      ensures Valid() && phase == Wake(old(phase), i)[i := Done(result)]
      ensures i !in tracked
    {
      var p :| 0 <= p < |tracked| && tracked[p] == i;
      SerialEnd(reqs, areas, phase, tracked, p, Done(result));
      FlyingEnd(reqs, phase, i, Done(result));
      JobsEnd(reqs, areas, phase, image, backing, i, Done(result));
      tracked := Remove(tracked, p);
      if reqs[i].kind.CopyOnRead? {
        inFlight := inFlight - 1;
      }
      phase := Wake(phase, i)[i := Done(result)];
    }

    /** A request ends well, and returns what it has read. For a copy-on-read request that is what the guest sees at
        that moment, and is allocated from then on; a write request has written all its sectors. */
    method End(i: nat)
      requires Valid() && i < |reqs| && phase[i].Tracked?
      requires phase[i].job.Reading? || phase[i].job.Restoring? || phase[i].job.Writing?
      requires phase[i].job.left == {}
      modifies this`phase, this`tracked, this`inFlight
      ensures Valid() && phase[i].Done? && phase[i].result.Some? && phase == Wake(old(phase), i)[i := phase[i]]
      ensures !reqs[i].kind.Write? ==> forall k: nat :: k in phase[i].result.value <==> reqs[i].range.Has(k)
      ensures forall k :: k in phase[i].result.value ==>
                k in Buffer(old(phase)[i]) && phase[i].result.value[k] == Buffer(old(phase)[i])[k]
      ensures reqs[i].kind.CopyOnRead? ==> forall k :: k in phase[i].result.value ==>
              phase[i].result.value[k] == Visible(k)
      ensures reqs[i].kind.CopyOnRead? ==> Allocated(reqs[i].range, image)
      ensures By(i) == old(By(i))
    {
      var job := phase[i].job;
      assert JobOk(reqs[i], areas[i], job, image, backing) && AreaOk(reqs, areas, c, i);
      WithinClusters(reqs[i].range, c);
      var result := if job.Writing? then map[] else map k | k in job.buf && reqs[i].range.Has(k) :: job.buf[k];
      Leave(i, Some(result));
    }

    /** The action is the next one of its request. */
    predicate Enabled(a: Action)
      requires |phase| == |reqs|
      reads this
    {
      && a.i < |reqs|
      && match a {
           case Start(i) => phase[i] == New
           case Resume(i) => phase[i] == Woken
           case Decide(i, _) => phase[i] == Tracked(Deciding)
           case ReadSector(i, k) => phase[i].Tracked? && (phase[i].job.Reading? || phase[i].job.Copying?)
               && k in phase[i].job.left
           case Turn(i) => phase[i].Tracked? && phase[i].job.Copying? && phase[i].job.left == {}
           case WriteSector(i, k) => phase[i].Tracked? && (phase[i].job.Restoring? || phase[i].job.Writing?)
               && k in phase[i].job.left
           case End(i) =>
             && phase[i].Tracked? && (phase[i].job.Reading? || phase[i].job.Restoring? || phase[i].job.Writing?)
             && phase[i].job.left == {}
           case Fail(i) => phase[i].Tracked?
         }
    }

    /** The sector that the guest writes with this action. */
    predicate GuestWrites(a: Action, k: nat)
      requires |phase| == |reqs|
      reads this
    {
      a == Action.WriteSector(a.i, k) && Enabled(a) && reqs[a.i].kind.Write?
    }

    function GuestData(a: Action, k: nat): Sector
      requires Valid() && GuestWrites(a, k)
      reads this
    {
      assert JobOk(reqs[a.i], areas[a.i], phase[a.i].job, image, backing);
      reqs[a.i].kind.data[k - reqs[a.i].range.start]
    }

    /** Any enabled action keeps the invariant, brings the requests nearer to their end, and changes what the
        guest sees only if it is the guest's own write. */
    method Step(a: Action)
      requires Valid() && Enabled(a)
      modifies this
      ensures Valid() && Lower(Rank(reqs, areas, phase), old(Rank(reqs, areas, phase)))
      ensures forall k: nat :: Visible(k) == if old(GuestWrites(a, k)) then old(GuestData(a, k)) else old(Visible(k))
      ensures forall j: nat, k: nat | j < |reqs| && k in By(j) :: k in old(By(j)) || a == Action.WriteSector(j, k)
      ensures Moves(reqs, old(phase), phase, a, image, backing)
    {
      if a.WriteSector? {
        StepWrite(a.i, a.k);
      } else if a.ReadSector? || a.Turn? || a.Decide? {
        StepJob(a);
      } else if a.Start? || a.Resume? {
        StepEnter(a);
      } else {
        StepEnd(a);
      }
    }

    method StepWrite(i: nat, k: nat)
      requires Valid() && Enabled(Action.WriteSector(i, k))
      modifies this`phase, this`image
      ensures Valid() && Lower(Rank(reqs, areas, phase), old(Rank(reqs, areas, phase)))
      ensures forall q: nat :: Visible(q) == if q == k && reqs[i].kind.Write? then old(Payload(i, k))
              else old(Visible(q))
      ensures forall j: nat, q: nat | j < |reqs| && q in By(j) :: q in old(By(j)) || (j == i && q == k)
      ensures Moves(reqs, old(phase), phase, Action.WriteSector(i, k), image, backing)
    {
      assert JobOk(reqs[i], areas[i], phase[i].job, image, backing);
      ghost var phase0 := phase;
      WriteSector(i, k);
      RankWork(reqs, areas, phase0, i, phase[i]);
    }

    method StepJob(a: Action)
      requires Valid() && Enabled(a) && (a.ReadSector? || a.Turn? || a.Decide?)
      modifies this`phase
      ensures Valid() && Lower(Rank(reqs, areas, phase), old(Rank(reqs, areas, phase)))
      ensures forall j: nat, k: nat | j < |reqs| && k in By(j) :: k in old(By(j))
      ensures Moves(reqs, old(phase), phase, a, image, backing)
    {
      ghost var phase0 := phase;
      match a {
        case ReadSector(_, k) => ReadSector(a.i, k);
        case Turn(_) => Turn(a.i);
        case Decide(_, whole) => Decide(a.i, whole);
      }
      ghost var p := phase[a.i];
      assert phase == phase0[a.i := p];
      JobMoves(phase0, a, p);
    }

    /** What a request that is still at work has to show for itself */
    lemma JobMoves(phase0: seq<Phase>, a: Action, p: Phase)
      requires |reqs| == |areas| == |phase0| && a.i < |reqs| && phase0[a.i].Tracked? && p.Tracked?
      requires Weight(reqs[a.i], areas[a.i], p) < Weight(reqs[a.i], areas[a.i], phase0[a.i])
      requires Goes(reqs[a.i], phase0[a.i], p, a, image, backing) && WrittenBy(reqs[a.i], p) == {}
      ensures var phase := phase0[a.i := p];
              && Lower(Rank(reqs, areas, phase), Rank(reqs, areas, phase0))
              && Moves(reqs, phase0, phase, a, image, backing)
              && forall j: nat, k: nat | j < |reqs| && k in WrittenBy(reqs[j], phase[j]) ::
                   k in WrittenBy(reqs[j], phase0[j])
    {
      RankWork(reqs, areas, phase0, a.i, p);
    }

    method StepEnter(a: Action)
      requires Valid() && Enabled(a) && (a.Start? || a.Resume?)
      modifies this`phase, this`tracked, this`inFlight
      ensures Valid() && Lower(Rank(reqs, areas, phase), old(Rank(reqs, areas, phase)))
      ensures forall j: nat, k: nat | j < |reqs| && k in By(j) :: k in old(By(j))
      ensures Moves(reqs, old(phase), phase, a, image, backing)
    {
      var i := a.i;
      ghost var phase0 := phase;
      if a.Start? {
        var p := Start(i);
      } else {
        var on := Enter(i);
      }
      RankWork(reqs, areas, phase0, i, phase[i]);
    }

    method StepEnd(a: Action)
      requires Valid() && Enabled(a) && (a.End? || a.Fail?)
      modifies this`phase, this`tracked, this`inFlight
      ensures Valid() && Lower(Rank(reqs, areas, phase), old(Rank(reqs, areas, phase)))
      ensures forall j: nat, k: nat | j < |reqs| && k in By(j) :: k in old(By(j))
      ensures Moves(reqs, old(phase), phase, a, image, backing)
    {
      var i := a.i;
      ghost var phase0 := phase;
      if a.End? {
        End(i);
      } else {
        Leave(i, None);
      }
      RankEnd(reqs, areas, phase0, i, phase[i]);
    }

    /** There is no deadlock: while a request has not ended, some request can go on, without an error. */
    lemma Progress(i: nat) returns (a: Action)
      requires Valid() && i < |reqs| && !phase[i].Done?
      ensures Enabled(a) && !a.Fail?
    {
      match phase[i] {
        case New => a := Action.Start(i);
        case Woken => a := Resume(i);
        case Waiting(on) => a := NextOf(on);
        case Tracked(_) => a := NextOf(i);
      }
    }

    lemma NextOf(i: nat) returns (a: Action)
      requires Valid() && i < |reqs| && phase[i].Tracked?
      ensures Enabled(a) && !a.Fail?
    {
      var job := phase[i].job;
      if job.Deciding? {
        a := Action.Decide(i, true);
      } else if job.left == {} {
        a := if job.Copying? then Action.Turn(i) else Action.End(i);
      } else {
        var k :| k in job.left;
        a := if job.Reading? || job.Copying? then Action.ReadSector(i, k) else Action.WriteSector(i, k);
      }
    }
  }

  /** No other tracked request touches a cluster that a tracked copy-on-read request touches. */
  lemma Exclusive(d: BlockDevice, i: nat, j: nat, k: nat)
    requires d.Valid() && i < |d.reqs| && j < |d.reqs| && i != j && d.reqs[i].kind.CopyOnRead?
    requires d.phase[i].Tracked? && d.phase[j].Tracked? && d.reqs[j].range.Has(k)
    ensures !Clusters(d.reqs[i].range, d.c).Has(k)
  {
    assert Parted(d.reqs, d.areas, d.phase, i, j) && AreaOk(d.reqs, d.areas, d.c, i) && AreaOk(d.reqs, d.areas, d.c, j);
    WithinClusters(d.reqs[j].range, d.c);
  }

  // ---- Whole runs -----------------------------------------------------------------------------------

  /** What the guest sees at sector k after the first t actions; writes[t] is what it writes with action t. */
  function View(writes: seq<Option<(nat, Sector)>>, t: nat, k: nat, initial: Sector): Sector
    requires t <= |writes|
  {
    if t == 0 then initial
    else if writes[t - 1].Some? && writes[t - 1].value.0 == k then writes[t - 1].value.1
    else View(writes, t - 1, k, initial)
  }

  lemma {:induction false} ViewKept(writes: seq<Option<(nat, Sector)>>, w: Option<(nat, Sector)>, t: nat, k: nat,
                                    initial: Sector)
    requires t <= |writes|
    ensures View(writes + [w], t, k, initial) == View(writes, t, k, initial)
  {
    if t > 0 { ViewKept(writes, w, t - 1, k, initial); }
  }

  /** At some moment, after at least `from` and at most `to` actions, the guest saw this at sector k. */
  ghost predicate Seen(writes: seq<Option<(nat, Sector)>>, from: nat, to: nat, k: nat, data: Sector, initial: Sector) {
    exists t: nat :: from <= t <= to && t <= |writes| && View(writes, t, k, initial) == data
  }

  lemma SeenKept(writes: seq<Option<(nat, Sector)>>, w: Option<(nat, Sector)>, from: nat, to: nat, to': nat, k: nat,
                 data: Sector, initial: Sector)
    requires Seen(writes, from, to, k, data, initial) && to <= to'
    ensures Seen(writes + [w], from, to', k, data, initial)
  {
    var t: nat :| from <= t <= to && t <= |writes| && View(writes, t, k, initial) == data;
    ViewKept(writes, w, t, k, initial);
  }

  /** A sector that is not written while a read is under way is read as it was when the read started. */
  lemma {:induction false} SeenUndisturbed(writes: seq<Option<(nat, Sector)>>, from: nat, to: nat, k: nat, data: Sector,
                                           initial: Sector)
    requires from <= to <= |writes| && Seen(writes, from, to, k, data, initial)
    requires forall t :: from <= t < to && writes[t].Some? ==> writes[t].value.0 != k
    ensures data == View(writes, from, k, initial)
  {
    var t: nat :| from <= t <= to && t <= |writes| && View(writes, t, k, initial) == data;
    ViewUndisturbed(writes, from, t, k, initial);
  }

  lemma {:induction false} ViewUndisturbed(writes: seq<Option<(nat, Sector)>>, from: nat, to: nat, k: nat,
                                           initial: Sector)
    requires from <= to <= |writes|
    requires forall t :: from <= t < to && writes[t].Some? ==> writes[t].value.0 != k
    ensures View(writes, to, k, initial) == View(writes, from, k, initial)
  {
    if from < to { ViewUndisturbed(writes, from, to - 1, k, initial); }
  }

  /** A write request's own data for sector k is w. */
  ghost predicate Asks(req: Request, k: nat, w: (nat, Sector)) {
    && req.kind.Write? && req.range.Has(k) && |req.kind.data| == req.range.count
    && w == (k, req.kind.data[k - req.range.start])
  }

  /** One of the actions from `from` on and before `to` is the request's write of sector k. */
  ghost predicate Wrote(req: Request, k: nat, writes: seq<Option<(nat, Sector)>>, from: nat, to: nat) {
    exists t :: from <= t < to && t < |writes| && writes[t].Some? && Asks(req, k, writes[t].value)
  }

  lemma WroteKept(req: Request, k: nat, writes: seq<Option<(nat, Sector)>>, w: Option<(nat, Sector)>, from: nat,
                  to: nat,
                  to': nat)
    requires to <= to' && from <= |writes|
    requires Wrote(req, k, writes, from, to) || (w.Some? && Asks(req, k, w.value) && |writes| < to')
    ensures Wrote(req, k, writes + [w], from, to')
  {
    if Wrote(req, k, writes, from, to) {
      var t :| from <= t < to && t < |writes| && writes[t].Some? && Asks(req, k, writes[t].value);
      assert (writes + [w])[t] == writes[t];
    } else {
      assert (writes + [w])[|writes|] == w;
    }
  }

  /** A write that some write request asks for. */
  ghost predicate Written(reqs: seq<Request>, w: (nat, Sector)) {
    exists i :: 0 <= i < |reqs| && Asks(reqs[i], w.0, w)
  }

  /** When a request started and ended: the numbers of those actions */
  datatype Span = Span(began: nat, ended: Option<nat>)

  /** The first n actions of a schedule have brought a request to p: it started and ended when it says, all that it has
      read, or returned, is what the guest saw at some moment in between, and all that it has written it has written in
      between. */
  ghost predicate SpanOk(req: Request, i: nat, p: Phase, schedule: seq<Action>, n: nat, span: Span,
                         writes: seq<Option<(nat, Sector)>>, image: map<nat, Sector>, backing: nat -> Sector)
    requires n <= |schedule|
  {
    && span.began < n && schedule[span.began] == Action.Start(i) && (span.ended.Some? <==> p.Done?)
    && (p.Done? ==> span.began < span.ended.value < n && schedule[span.ended.value] in {Action.End(i), Fail(i)})
    && (forall k {:trigger Buffer(p)[k]} | k in Buffer(p) ::
          Seen(writes, span.began + 1, if p.Done? then span.ended.value else n, k, Buffer(p)[k],
               Content(image, backing, k)))
    && (forall k {:trigger k in WrittenBy(req, p)} | k in WrittenBy(req, p) ::
          Wrote(req, k, writes, span.began + 1, if p.Done? then span.ended.value else n))
    && (p.Done? && p.result.Some? && !req.kind.Write? ==> forall k: nat :: k in p.result.value <==> req.range.Has(k))
  }

  /** The requests that have come in since the start of the run */
  ghost predicate SpansOk(reqs: seq<Request>, phase0: seq<Phase>, phase: seq<Phase>, schedule: seq<Action>, n: nat,
                          spans: map<nat, Span>, writes: seq<Option<(nat, Sector)>>, image: map<nat, Sector>,
                          backing: nat -> Sector)
    requires |reqs| == |phase0| == |phase| && n <= |schedule|
  {
    && (forall i: nat | i < |reqs| && !phase0[i].New? :: !phase[i].New?)
    && forall i: nat {:trigger phase[i]} | i < |reqs| && phase0[i].New? && !phase[i].New? ::
      i in spans && SpanOk(reqs[i], i, phase[i], schedule, n, spans[i], writes, image, backing)
  }

  /** Once w has been written, and nothing else to its sector since, the guest sees it. */
  lemma {:induction false} ViewOfWrite(writes: seq<Option<(nat, Sector)>>, at: nat, t: nat, w: (nat, Sector),
                                       initial: Sector)
    requires at < t <= |writes| && writes[at] == Some(w)
    requires forall u :: at <= u < t && writes[u].Some? && writes[u].value.0 == w.0 ==> writes[u].value == w
    ensures View(writes, t, w.0, initial) == w.1
  {
    if at < t - 1 { ViewOfWrite(writes, at, t - 1, w, initial); }
  }

  /** A read that starts after a write has ended returns what was written, if nothing else is written to that sector
      from the start of the write to the end of the read. */
  lemma ReadAfterWrite(reqs: seq<Request>, phase0: seq<Phase>, phase: seq<Phase>, schedule: seq<Action>,
                       spans: map<nat, Span>, writes: seq<Option<(nat, Sector)>>, image: map<nat, Sector>,
                       backing: nat -> Sector, i: nat, j: nat, k: nat)
    requires |reqs| == |phase0| == |phase| && |writes| == |schedule| && i < |reqs| && j < |reqs|
    requires SpansOk(reqs, phase0, phase, schedule, |schedule|, spans, writes, image, backing)
    requires phase0[i].New? && phase[i].Done? && phase[i].result.Some? && reqs[i].kind.Write? && reqs[i].range.Has(k)
    requires phase0[j].New? && phase[j].Done? && phase[j].result.Some? && !reqs[j].kind.Write? && reqs[j].range.Has(k)
    requires spans[i].ended.value < spans[j].began
    requires forall t :: spans[i].began < t < spans[j].ended.value && writes[t].Some? && writes[t].value.0 == k ==>
               Asks(reqs[i], k, writes[t].value)
    ensures |reqs[i].kind.data| == reqs[i].range.count
            && phase[j].result.value[k] == reqs[i].kind.data[k - reqs[i].range.start]
  {
    var data := Buffer(phase[j])[k];
    assert k in WrittenBy(reqs[i], phase[i]);
    var at :| spans[i].began + 1 <= at < spans[i].ended.value && writes[at].Some? && Asks(reqs[i], k, writes[at].value);
    var t: nat :| spans[j].began + 1 <= t <= spans[j].ended.value
        && View(writes, t, k, Content(image, backing, k)) == data;
    ViewOfWrite(writes, at, t, writes[at].value, Content(image, backing, k));
  }

  /** The action of request i, for its span */
  function SpanAfter(spans: map<nat, Span>, a: Action, n: nat): map<nat, Span> {
    if a.Start? then spans[a.i := Span(n, None)]
    else if (a.End? || a.Fail?) && a.i in spans then spans[a.i := spans[a.i].(ended := Some(n))]
    else spans
  }

  /** A request that does not act */
  lemma SpanStays(req: Request, i: nat, p: Phase, p': Phase, schedule: seq<Action>, n: nat, span: Span,
                  writes: seq<Option<(nat, Sector)>>, w: Option<(nat, Sector)>, image: map<nat, Sector>,
                  backing: nat -> Sector)
    requires n < |schedule| && |writes| == n && SpanOk(req, i, p, schedule, n, span, writes, image, backing)
             && Stays(p, p')
    ensures SpanOk(req, i, p', schedule, n + 1, span, writes + [w], image, backing)
  {
    forall k | k in Buffer(p')
      ensures Seen(writes + [w], span.began + 1, if p'.Done? then span.ended.value else n + 1, k, Buffer(p')[k],
                   Content(image, backing, k))
    {
      SeenKept(writes, w, span.began + 1, if p.Done? then span.ended.value else n,
               if p.Done? then span.ended.value else n + 1, k, Buffer(p)[k], Content(image, backing, k));
    }
    forall k | k in WrittenBy(req, p')
      ensures Wrote(req, k, writes + [w], span.began + 1, if p'.Done? then span.ended.value else n + 1)
    {
      WroteKept(req, k, writes, w, span.began + 1, if p.Done? then span.ended.value else n,
                if p'.Done? then span.ended.value else n + 1);
    }
  }

  /** A request that has come in does its next action. */
  lemma SpanGoes(req: Request, i: nat, p: Phase, p': Phase, schedule: seq<Action>, n: nat, spans: map<nat, Span>,
                 writes: seq<Option<(nat, Sector)>>, w: Option<(nat, Sector)>, image0: map<nat, Sector>,
                 image: map<nat, Sector>, backing: nat -> Sector)
    requires n < |schedule| && |writes| == n && i == schedule[n].i && Goes(req, p, p', schedule[n], image, backing)
    requires !p.New? ==> i in spans && SpanOk(req, i, p, schedule, n, spans[i], writes, image0, backing)
    requires forall k: nat :: Content(image, backing, k) == View(writes + [w], n + 1, k, Content(image0, backing, k))
    requires forall k :: k in WrittenBy(req, p') ==>
               k in WrittenBy(req, p) || (schedule[n].WriteSector? && w.Some? && Asks(req, k, w.value))
    ensures var spans' := SpanAfter(spans, schedule[n], n);
            i in spans' && SpanOk(req, i, p', schedule, n + 1, spans'[i], writes + [w], image0, backing)
  {
    var span := SpanAfter(spans, schedule[n], n)[i];
    forall k | k in Buffer(p')
      ensures Seen(writes + [w], span.began + 1, if p'.Done? then span.ended.value else n + 1, k, Buffer(p')[k],
                   Content(image0, backing, k))
    {
      if k in Buffer(p) && Buffer(p')[k] == Buffer(p)[k] {
        SeenKept(writes, w, span.began + 1, n, if p'.Done? then n else n + 1, k, Buffer(p)[k],
                 Content(image0, backing, k));
      } else {
        assert View(writes + [w], n + 1, k, Content(image0, backing, k)) == Buffer(p')[k];
      }
    }
    forall k | k in WrittenBy(req, p')
      ensures Wrote(req, k, writes + [w], span.began + 1, if p'.Done? then span.ended.value else n + 1)
    {
      WroteKept(req, k, writes, w, span.began + 1, n, if p'.Done? then n else n + 1);
    }
  }

  /** One action of a run, of which `enabled` says whether it takes place */
  lemma SpansStep(reqs: seq<Request>, phase0: seq<Phase>, phase: seq<Phase>, phase': seq<Phase>, schedule: seq<Action>,
                  n: nat, spans: map<nat, Span>, writes: seq<Option<(nat, Sector)>>, w: Option<(nat, Sector)>,
                  image0: map<nat, Sector>, image: map<nat, Sector>, backing: nat -> Sector, enabled: bool)
    returns (spans': map<nat, Span>)
    requires |reqs| == |phase0| == |phase| == |phase'| && n < |schedule| && |writes| == n
    requires SpansOk(reqs, phase0, phase, schedule, n, spans, writes, image0, backing)
    requires if enabled then Moves(reqs, phase, phase', schedule[n], image, backing) else phase' == phase
    requires forall k: nat :: Content(image, backing, k) == View(writes + [w], n + 1, k, Content(image0, backing, k))
    requires forall j: nat, k: nat | j < |reqs| && k in WrittenBy(reqs[j], phase'[j]) ::
               k in WrittenBy(reqs[j], phase[j]) || (schedule[n].WriteSector? && w.Some? && Asks(reqs[j], k, w.value))
    ensures SpansOk(reqs, phase0, phase', schedule, n + 1, spans', writes + [w], image0, backing)
  {
    spans' := if enabled then SpanAfter(spans, schedule[n], n) else spans;
    forall i: nat | i < |reqs| && phase0[i].New? && !phase'[i].New?
      ensures i in spans' && SpanOk(reqs[i], i, phase'[i], schedule, n + 1, spans'[i], writes + [w], image0, backing)
    {
      if enabled && i == schedule[n].i {
        SpanGoes(reqs[i], i, phase[i], phase'[i], schedule, n, spans, writes, w, image0, image, backing);
      } else {
        SpanStays(reqs[i], i, phase[i], phase'[i], schedule, n, spans[i], writes, w, image0, backing);
      }
    }
  }

  /** One action, if it is enabled; w is what the guest writes with it. */
  method Act(d: BlockDevice, a: Action) returns (enabled: bool, ghost w: Option<(nat, Sector)>)
    requires d.Valid()
    modifies d
    ensures d.Valid() && enabled == old(d.Enabled(a))
    ensures if enabled then Moves(d.reqs, old(d.phase), d.phase, a, d.image, d.backing) else d.phase == old(d.phase)
    ensures forall k: nat :: Content(d.image, d.backing, k) == if w.Some? && w.value.0 == k then w.value.1
                             else Content(old(d.image), d.backing, k)
    ensures w.Some? ==> Written(d.reqs, w.value) && a.WriteSector?
    ensures forall j: nat, k: nat | j < |d.reqs| && k in WrittenBy(d.reqs[j], d.phase[j]) ::
              k in WrittenBy(d.reqs[j], old(d.phase)[j]) || (w.Some? && Asks(d.reqs[j], k, w.value))
  {
    w := None;
    enabled := d.Enabled(a);
    if enabled {
      if a.WriteSector? && d.reqs[a.i].kind.Write? {
        assert JobOk(d.reqs[a.i], d.areas[a.i], d.phase[a.i].job, d.image, d.backing);
        w := Some((a.k, d.GuestData(a, a.k)));
        assert Asks(d.reqs[a.i], a.k, w.value);
      }
      d.Step(a);
      forall k: nat
        ensures Content(d.image, d.backing, k) == if w.Some? && w.value.0 == k then w.value.1
                else Content(old(d.image), d.backing, k)
      {
        assert d.Visible(k) == Content(d.image, d.backing, k);
      }
      forall j: nat, k: nat | j < |d.reqs| && k in WrittenBy(d.reqs[j], d.phase[j])
        ensures k in WrittenBy(d.reqs[j], old(d.phase)[j]) || (w.Some? && Asks(d.reqs[j], k, w.value))
      {
        assert k in d.By(j);
      }
    }
  }

  /** What the guest sees is its own writes, over what it saw at the start. */
  ghost predicate ViewIs(image: map<nat, Sector>, image0: map<nat, Sector>, backing: nat -> Sector,
                         writes: seq<Option<(nat, Sector)>>) {
    forall k: nat :: Content(image, backing, k) == View(writes, |writes|, k, Content(image0, backing, k))
  }

  /** The sectors that requests have written since the start have been written. */
  ghost predicate WroteAll(reqs: seq<Request>, phase0: seq<Phase>, phase: seq<Phase>,
                           writes: seq<Option<(nat, Sector)>>)
    requires |reqs| == |phase| == |phase0|
  {
    forall j: nat, k: nat | j < |reqs| && k in WrittenBy(reqs[j], phase[j]) && k !in WrittenBy(reqs[j], phase0[j]) ::
      Wrote(reqs[j], k, writes, 0, |writes|)
  }

  ghost predicate AllWritten(reqs: seq<Request>, writes: seq<Option<(nat, Sector)>>) {
    forall t :: 0 <= t < |writes| && writes[t].Some? ==> Written(reqs, writes[t].value)
  }

  lemma ViewStep(image: map<nat, Sector>, image': map<nat, Sector>, image0: map<nat, Sector>, backing: nat -> Sector,
                 writes: seq<Option<(nat, Sector)>>, w: Option<(nat, Sector)>)
    requires ViewIs(image, image0, backing, writes)
    requires forall k: nat :: Content(image', backing, k) == if w.Some? && w.value.0 == k then w.value.1
                              else Content(image, backing, k)
    ensures ViewIs(image', image0, backing, writes + [w])
  {
    forall k: nat
      ensures Content(image', backing, k) == View(writes + [w], |writes| + 1, k, Content(image0, backing, k))
    {
      ViewKept(writes, w, |writes|, k, Content(image0, backing, k));
    }
  }

  lemma WroteStep(reqs: seq<Request>, phase0: seq<Phase>, phase: seq<Phase>, phase': seq<Phase>,
                  writes: seq<Option<(nat, Sector)>>, w: Option<(nat, Sector)>)
    requires |reqs| == |phase| == |phase'| == |phase0| && WroteAll(reqs, phase0, phase, writes)
    requires forall j: nat, k: nat | j < |reqs| && k in WrittenBy(reqs[j], phase'[j]) ::
               k in WrittenBy(reqs[j], phase[j]) || (w.Some? && Asks(reqs[j], k, w.value))
    ensures WroteAll(reqs, phase0, phase', writes + [w])
  {
    forall j: nat, k: nat | j < |reqs| && k in WrittenBy(reqs[j], phase'[j]) && k !in WrittenBy(reqs[j], phase0[j])
      ensures Wrote(reqs[j], k, writes + [w], 0, |writes| + 1)
    {
      WroteKept(reqs[j], k, writes, w, 0, |writes|, |writes| + 1);
    }
  }

  method RunStep(d: BlockDevice, schedule: seq<Action>, n: nat, ghost phase0: seq<Phase>, ghost image0: map<nat,
                 Sector>,
                 ghost writes: seq<Option<(nat, Sector)>>, ghost spans: map<nat, Span>)
    returns (ghost writes': seq<Option<(nat, Sector)>>, ghost spans': map<nat, Span>)
    requires d.Valid() && |phase0| == |d.phase| && n < |schedule| && |writes| == n
    requires ViewIs(d.image, image0, d.backing, writes) && AllWritten(d.reqs, writes)
             && WroteAll(d.reqs, phase0, d.phase, writes)
    requires SpansOk(d.reqs, phase0, d.phase, schedule, n, spans, writes, image0, d.backing)
    modifies d
    ensures d.Valid() && |writes'| == n + 1
    ensures ViewIs(d.image, image0, d.backing, writes') && AllWritten(d.reqs, writes')
            && WroteAll(d.reqs, phase0, d.phase, writes')
    ensures SpansOk(d.reqs, phase0, d.phase, schedule, n + 1, spans', writes', image0, d.backing)
  {
    ghost var phase, image := d.phase, d.image;
    var enabled, w := Act(d, schedule[n]);
    writes' := writes + [w];
    ViewStep(image, d.image, image0, d.backing, writes, w);
    WroteStep(d.reqs, phase0, phase, d.phase, writes, w);
    spans' := SpansStep(d.reqs, phase0, phase, d.phase, schedule, n, spans, writes, w, image0, d.image, d.backing,
                        enabled);
  }

  /** Any interleaving of the requests: whatever the schedule, the guest sees its own writes and nothing else, a write
      request that ends well has written each of its sectors, and what a copy-on-read request that ends well has brought
      in stays. What a read of either kind returns is, for each of its sectors, what the guest saw there at some moment
      between its start and its end, and what a write writes is written between its start and its end. */
  method Run(d: BlockDevice, schedule: seq<Action>)
    returns (ghost writes: seq<Option<(nat, Sector)>>, ghost spans: map<nat, Span>)
    requires d.Valid()
    modifies d
    ensures d.Valid() && CopiesKept(d.reqs, d.phase, d.image)
    ensures |writes| == |schedule| && ViewIs(d.image, old(d.image), d.backing, writes)
    ensures AllWritten(d.reqs, writes) && WroteAll(d.reqs, old(d.phase), d.phase, writes)
    ensures SpansOk(d.reqs, old(d.phase), d.phase, schedule, |schedule|, spans, writes, old(d.image), d.backing)
  {
    writes, spans := [], map[];
    ghost var phase0, image0 := d.phase, d.image;
    for n := 0 to |schedule|
      invariant d.Valid() && |writes| == n && ViewIs(d.image, image0, d.backing, writes)
      invariant AllWritten(d.reqs, writes) && WroteAll(d.reqs, phase0, d.phase, writes)
      invariant SpansOk(d.reqs, phase0, d.phase, schedule, n, spans, writes, image0, d.backing)
    {
      writes, spans := RunStep(d, schedule, n, phase0, image0, writes, spans);
    }
  }
}
