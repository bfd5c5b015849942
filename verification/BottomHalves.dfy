/** Bottom halves in async.c: callbacks that run from `aio_bh_poll`, which they may enter again, and which frees
    deleted ones only when no walk of the list is under way. */
module BottomHalves {
  import opened AioLog
  import opened Options

  /** QEMUBH; nat numbers stand for pointers. */
  datatype Bh = Bh(next: Option<nat>, scheduled: bool, idle: bool, deleted: bool)

  /** What a callback, or the program, does: any finite run of these, where polling again runs further callbacks, one
      after the other for the bottom halves that it invokes. */
  datatype Op = New | Schedule(id: nat, idle: bool) | Cancel(id: nat) | Delete(id: nat) | Poll(callbacks: Runs)

  datatype Run = Stop | Then(op: Op, rest: Run)

  datatype Runs = NoMore | Next(run: Run, rest: Runs)

  /** The cancellations and deletions that a run asks for, at whatever depth */
  function OpCauses(op: Op): set<Event> {
    match op
    case Cancel(id) => {Withdrawn(id)}
    case Delete(id) => {Deleted(id)}
    case Poll(callbacks) => RunsCauses(callbacks)
    case _ => {}
  }

  function RunCauses(run: Run): set<Event> {
    match run
    case Stop => {}
    case Then(op, rest) => OpCauses(op) + RunCauses(rest)
  }

  function RunsCauses(runs: Runs): set<Event> {
    match runs
    case NoMore => {}
    case Next(run, rest) => RunCauses(run) + RunsCauses(rest)
  }

  // ---- Schedules ----------------------------------------------------------------------------------------

  /** Who is scheduled, and whether only on idle */
  type Schedules = map<nat, bool>

  function Applied(pending: Schedules, e: Event): Schedules {
    match e
    case Scheduled(id, idle) => pending[id := idle]
    case _ => pending - {e.id}
  }

  /** Who is scheduled after the first n events: whoever has been, and neither invoked, cancelled nor deleted since */
  function Pending(log: seq<Event>, n: nat): Schedules
    requires n <= |log|
  {
    if n == 0 then map[] else Applied(Pending(log, n - 1), log[n - 1])
  }

  ghost predicate InvocationOk(log: seq<Event>, t: nat)
    requires t < |log|
  {
    log[t].Invoked? ==> log[t].id in Pending(log, t)
  }

  /** Whoever is invoked has been scheduled, and not been invoked, cancelled or deleted since. */
  ghost predicate InvokedAsScheduled(log: seq<Event>) {
    forall t: nat {:trigger InvocationOk(log, t)} | t < |log| :: InvocationOk(log, t)
  }

  lemma {:induction false} PendingKept(log: seq<Event>, log': seq<Event>, n: nat)
    requires GoesOn(log, log') && n <= |log|
    ensures Pending(log', n) == Pending(log, n)
  {
    if n > 0 { PendingKept(log, log', n - 1); }
  }

  lemma PendingGrows(log: seq<Event>, log': seq<Event>, e: Event)
    requires log' == log + [e] && InvokedAsScheduled(log) && (e.Invoked? ==> e.id in Pending(log, |log|))
    ensures InvokedAsScheduled(log') && Pending(log', |log'|) == Applied(Pending(log, |log|), e)
  {
    PendingKept(log, log', |log|);
    forall t: nat | t < |log'|
      ensures InvocationOk(log', t)
    {
      if t < |log| {
        assert InvocationOk(log, t);
        PendingKept(log, log', t);
      }
    }
  }

  /** The last that happened to id before time n is that it was scheduled, at time s. */
  ghost predicate ScheduledAt(log: seq<Event>, s: nat, n: nat, id: nat, idle: bool) {
    s < n <= |log| && log[s] == Scheduled(id, idle) && forall t {:trigger log[t]} | s < t < n :: log[t].id != id
  }

  lemma {:induction false} PendingSince(log: seq<Event>, n: nat, id: nat) returns (s: nat)
    requires n <= |log| && id in Pending(log, n)
    ensures ScheduledAt(log, s, n, id, Pending(log, n)[id])
  {
    if log[n - 1].id == id { s := n - 1; } else { s := PendingSince(log, n - 1, id); }
  }

  /** Nobody is invoked more than once for each time it is scheduled: before an invocation the last that happened to
      it is that it was scheduled. */
  lemma OncePerSchedule(log: seq<Event>, t: nat) returns (s: nat, idle: bool)
    requires InvokedAsScheduled(log) && t < |log| && log[t].Invoked?
    ensures ScheduledAt(log, s, t, log[t].id, idle)
  {
    assert InvocationOk(log, t);
    s := PendingSince(log, t, log[t].id);
    idle := Pending(log, t)[log[t].id];
  }

  /** The schedules that the flags say */
  function SchedulesOf(bhs: map<nat, Bh>): Schedules { map id | id in bhs && bhs[id].scheduled :: bhs[id].idle }

  ghost predicate SchedulesAgree(bhs: map<nat, Bh>, log: seq<Event>) {
    InvokedAsScheduled(log) && Pending(log, |log|) == SchedulesOf(bhs)
  }

  lemma SchedulesGrow(bhs: map<nat, Bh>, bhs': map<nat, Bh>, log: seq<Event>, e: Event)
    requires SchedulesAgree(bhs, log) && SchedulesOf(bhs') == Applied(SchedulesOf(bhs), e)
    requires e.Invoked? ==> e.id in bhs && bhs[e.id].scheduled
    ensures SchedulesAgree(bhs', log + [e])
  {
    PendingGrows(log, log + [e], e);
  }

  // ---- The list -----------------------------------------------------------------------------------------

  ghost predicate NextOk(bhs: map<nat, Bh>, list: seq<nat>, i: nat)
    requires i < |list|
  {
    list[i] in bhs && bhs[list[i]].next == After(list, i)
  }

  /** first_bh and the next pointers run through exactly the bottom halves of `list`. */
  ghost predicate Linked(first: Option<nat>, bhs: map<nat, Bh>, list: seq<nat>) {
    && first == Head(list)
    && (forall i {:trigger NextOk(bhs, list, i)} | 0 <= i < |list| :: NextOk(bhs, list, i))
    && (forall id {:trigger Listed(list, id)} | id in bhs :: Listed(list, id))
    && (forall i, j {:trigger Differ(list, i, j)} | 0 <= i < j < |list| :: Differ(list, i, j))
  }

  /** Scheduled and not deleted: due to be invoked */
  predicate Due(bhs: map<nat, Bh>, id: nat) { id in bhs && bhs[id].scheduled && !bhs[id].deleted }

  function DueSet(bhs: map<nat, Bh>): set<nat> { set id | id in bhs && Due(bhs, id) }

  /** The log and the state agree on who is deleted and who is freed. */
  ghost predicate LogAgrees(bhs: map<nat, Bh>, freed: set<nat>, gone: set<nat>, log: seq<Event>) {
    && LogOk(log) && freed == FreedIn(log) && gone == Gone(log)
    && forall id :: id in gone <==> id in freed || (id in bhs && bhs[id].deleted)
  }

  /** A state, as far as others can see it */
  datatype State = State(list: seq<nat>, bhs: map<nat, Bh>, freed: set<nat>, log: seq<Event>)

  /** What any run of operations keeps: time moves on, whoever was due is still due or has been handled, deleted ones
      stay deleted, and while a walk is under way nobody leaves the list. */
  ghost predicate Later(s: State, walking: nat, t: State) {
    && GoesOn(s.log, t.log)
    && s.freed <= t.freed
    && (forall id :: Due(s.bhs, id) ==> Due(t.bhs, id) || Handled(t.log, |s.log|, id))
    && (forall id :: id in s.bhs && s.bhs[id].deleted ==> id in t.freed || (id in t.bhs && t.bhs[id].deleted))
    && (walking > 0 ==> t.freed == s.freed && EndsWith(s.list, 0, t.list))
  }

  lemma LaterTrans(s: State, walking: nat, t: State, u: State)
    requires Later(s, walking, t) && Later(t, walking, u)
    ensures Later(s, walking, u)
  {
    if walking > 0 { EndsWithTrans(s.list, 0, t.list, u.list); }
    forall id | Due(s.bhs, id)
      ensures Due(u.bhs, id) || Handled(u.log, |s.log|, id)
    {
      if !Due(t.bhs, id) {
        HandledGrows(t.log, u.log, |s.log|, id);
      } else if !Due(u.bhs, id) {
        HandledEarlier(u.log, |t.log|, |s.log|, id);
      }
    }
  }

  /** Ids in use are below `unused`, and freed ones are not in use. */
  ghost predicate IdsOk(bhs: map<nat, Bh>, freed: set<nat>, gone: set<nat>, unused: nat) {
    && (forall id :: id in bhs ==> id < unused && id !in freed)
    && (forall id :: id in gone ==> id < unused)
  }

  /** What holds of a state between operations */
  ghost predicate StateOk(s: State, first: Option<nat>, gone: set<nat>, unused: nat) {
    && Linked(first, s.bhs, s.list) && LogAgrees(s.bhs, s.freed, gone, s.log) && IdsOk(s.bhs, s.freed, gone, unused)
    && SchedulesAgree(s.bhs, s.log)
  }

  /** The flags of one bottom half change. */
  lemma FlagsLinked(first: Option<nat>, bhs: map<nat, Bh>, list: seq<nat>, id: nat, b: Bh)
    requires Linked(first, bhs, list) && id in bhs && b.next == bhs[id].next
    ensures Linked(first, bhs[id := b], list)
  {
    var bhs' := bhs[id := b];
    forall i | 0 <= i < |list|
      ensures NextOk(bhs', list, i)
    {
      assert NextOk(bhs, list, i);
    }
  }

  lemma NewLinked(first: Option<nat>, bhs: map<nat, Bh>, list: seq<nat>, id: nat)
    requires Linked(first, bhs, list) && id !in bhs
    ensures Linked(Some(id), bhs[id := Bh(first, false, false, false)], [id] + list)
  {
    var bhs', list' := bhs[id := Bh(first, false, false, false)], [id] + list;
    forall i | 0 <= i < |list'|
      ensures NextOk(bhs', list', i)
    {
      assert i > 0 ==> NextOk(bhs, list, i - 1) && list'[i] == list[i - 1];
    }
    forall x | x in bhs'
      ensures Listed(list', x)
    {
      if x == id { assert list'[0] == id; } else { assert Listed(list, x); }
    }
    forall i, j | 0 <= i < j < |list'|
      ensures Differ(list', i, j)
    {
      assert NextOk(bhs, list, j - 1) && (i > 0 ==> Differ(list, i - 1, j - 1));
    }
  }

  ghost function Created(s: State, first: Option<nat>, id: nat): State {
    s.(list := [id] + s.list, bhs := s.bhs[id := Bh(first, false, false, false)])
  }

  lemma NewOk(s: State, first: Option<nat>, gone: set<nat>, unused: nat)
    requires StateOk(s, first, gone, unused)
    ensures StateOk(Created(s, first, unused), Some(unused), gone, unused + 1)
  {
    NewLinked(first, s.bhs, s.list, unused);
    assert SchedulesOf(Created(s, first, unused).bhs) == SchedulesOf(s.bhs);
  }

  lemma NewLater(s: State, walking: nat, first: Option<nat>, id: nat)
    requires id !in s.bhs
    ensures Later(s, walking, Created(s, first, id))
  {
  }

  ghost function Flagged(s: State, id: nat, b: Bh, e: Event): State { s.(bhs := s.bhs[id := b], log := s.log + [e]) }

  /** What may be logged when bottom half id changes to b */
  ghost predicate EventFits(bhs: map<nat, Bh>, id: nat, b: Bh, e: Event)
    requires id in bhs
  {
    && (e in {Invoked(id), Withdrawn(id), Deleted(id)} || (e == Scheduled(id, b.idle) && !bhs[id].scheduled))
    && b.next == bhs[id].next && (b.scheduled <==> e.Scheduled?)
    && (e == Invoked(id) ==> !b.deleted && bhs[id].scheduled) && (b.deleted <==> bhs[id].deleted || e == Deleted(id))
  }

  lemma FlagsOk(s: State, first: Option<nat>, gone: set<nat>, unused: nat, id: nat, b: Bh, e: Event)
    requires StateOk(s, first, gone, unused) && id in s.bhs && EventFits(s.bhs, id, b, e)
    ensures StateOk(Flagged(s, id, b, e), first, if e.Deleted? then gone + {id} else gone, unused)
  {
    FlagsLinked(first, s.bhs, s.list, id, b);
    LogGrows(s.freed, gone, s.log, e);
    SchedulesGrow(s.bhs, s.bhs[id := b], s.log, e);
  }

  lemma FlagsLater(s: State, walking: nat, id: nat, b: Bh, e: Event)
    requires id in s.bhs && EventFits(s.bhs, id, b, e)
    ensures Later(s, walking, Flagged(s, id, b, e))
  {
    assert (s.log + [e])[|s.log|] == e;
  }

  /** first_bh and the bottom halves once the one at place k has been unlinked and freed */
  function FirstWithout(first: Option<nat>, bhs: map<nat, Bh>, list: seq<nat>, k: nat): Option<nat>
    requires k < |list| && list[k] in bhs
  {
    if k == 0 then bhs[list[k]].next else first
  }

  function BhsWithout(bhs: map<nat, Bh>, list: seq<nat>, k: nat): map<nat, Bh>
    requires k < |list| && list[k] in bhs && (k > 0 ==> list[k - 1] in bhs)
  {
    var linked := if k == 0 then bhs else bhs[list[k - 1] := bhs[list[k - 1]].(next := bhs[list[k]].next)];
    linked - {list[k]}
  }

  lemma UnlinkLinked(first: Option<nat>, bhs: map<nat, Bh>, list: seq<nat>, k: nat)
    requires Linked(first, bhs, list) && k < |list|
    ensures list[k] in bhs && (k > 0 ==> list[k - 1] in bhs)
    ensures Linked(FirstWithout(first, bhs, list, k), BhsWithout(bhs, list, k), Without(list, k))
  {
    assert NextOk(bhs, list, k) && (k > 0 ==> NextOk(bhs, list, k - 1) && Differ(list, k - 1, k));
    var bhs', list' := BhsWithout(bhs, list, k), Without(list, k);
    forall i | 0 <= i < |list'|
      ensures NextOk(bhs', list', i)
    {
      var j := if i < k then i else i + 1;
      assert NextOk(bhs, list, j) && list'[i] == list[j] && (i < k ==> Differ(list, i, k))
          && (i >= k ==> Differ(list, k, j));
      assert 0 < k && i + 1 < k ==> Differ(list, i, k - 1);
      assert 0 < k <= i ==> Differ(list, k - 1, j);
    }
    forall id | id in bhs'
      ensures Listed(list', id)
    {
      assert Listed(list, id);
      var j :| 0 <= j < |list| && list[j] == id;
      assert list'[if j < k then j else j - 1] == id;
    }
    forall i, j | 0 <= i < j < |list'|
      ensures Differ(list', i, j)
    {
      assert Differ(list, if i < k then i else i + 1, if j < k then j else j + 1);
    }
  }

  ghost function Unlinked(s: State, k: nat): State
    requires k < |s.list| && s.list[k] in s.bhs && (k > 0 ==> s.list[k - 1] in s.bhs)
  {
    State(Without(s.list, k), BhsWithout(s.bhs, s.list, k), s.freed + {s.list[k]}, s.log + [Freed(s.list[k])])
  }

  lemma FreeLater(s: State, k: nat)
    requires k < |s.list| && s.list[k] in s.bhs && (k > 0 ==> s.list[k - 1] in s.bhs) && s.bhs[s.list[k]].deleted
    ensures Later(s, 0, Unlinked(s, k)) && Explained({}, Unlinked(s, k).log, |s.log|)
  {
  }

  lemma FreeOk(s: State, first: Option<nat>, gone: set<nat>, unused: nat, k: nat)
    requires StateOk(s, first, gone, unused) && k < |s.list| && s.list[k] in s.bhs && (k > 0 ==> s.list[k - 1] in s.bhs)
    requires s.bhs[s.list[k]].deleted
    ensures StateOk(Unlinked(s, k), FirstWithout(first, s.bhs, s.list, k), gone, unused)
  {
    UnlinkLinked(first, s.bhs, s.list, k);
    LogGrows(s.freed, gone, s.log, Freed(s.list[k]));
    SchedulesGrow(s.bhs, BhsWithout(s.bhs, s.list, k), s.log, Freed(s.list[k]));
  }

  /** The bottom half at place i is there, and not deleted. */
  ghost predicate Kept(bhs: map<nat, Bh>, list: seq<nat>, i: nat)
    requires i < |list|
  {
    list[i] in bhs && !bhs[list[i]].deleted
  }

  /** The first k places of the list have been swept. */
  ghost predicate Clean(bhs: map<nat, Bh>, list: seq<nat>, k: nat)
    requires k <= |list|
  {
    forall i {:trigger Kept(bhs, list, i)} | 0 <= i < k :: Kept(bhs, list, i)
  }

  lemma CleanWithout(bhs: map<nat, Bh>, list: seq<nat>, k: nat)
    requires k < |list| && list[k] in bhs && bhs[list[k]].deleted && Clean(bhs, list, k)
             && (k > 0 ==> list[k - 1] in bhs)
    ensures Clean(BhsWithout(bhs, list, k), Without(list, k), k)
  {
    var bhs', list' := BhsWithout(bhs, list, k), Without(list, k);
    forall i | 0 <= i < k
      ensures Kept(bhs', list', i)
    {
      assert Kept(bhs, list, i);
    }
  }

  /** The pointer before place k: bhp says whose it is. */
  lemma PointerIs(first: Option<nat>, bhs: map<nat, Bh>, list: seq<nat>, k: nat)
    requires Linked(first, bhs, list) && k <= |list|
    ensures k > 0 ==> list[k - 1] in bhs
    ensures (if k == 0 then first else bhs[list[k - 1]].next) == (if k < |list| then Some(list[k]) else None)
    ensures k < |list| ==> list[k] in bhs
  {
    if k > 0 { assert NextOk(bhs, list, k - 1); }
    if k < |list| { assert NextOk(bhs, list, k); }
  }

  lemma AllClean(first: Option<nat>, bhs: map<nat, Bh>, list: seq<nat>)
    requires Linked(first, bhs, list) && Clean(bhs, list, |list|)
    ensures forall id :: id in bhs ==> !bhs[id].deleted
  {
    forall id | id in bhs
      ensures !bhs[id].deleted
    {
      assert Listed(list, id);
      var i :| 0 <= i < |list| && list[i] == id;
      assert Kept(bhs, list, i);
    }
  }

  lemma LaterFreely(s: State, walking: nat, walking': nat, t: State)
    requires Later(s, walking, t) && (walking' > 0 ==> walking > 0)
    ensures Later(s, walking', t)
  {
  }

  /** Where the walk is: at place k of the list as it was at the start, wherever that is now. */
  lemma WalkAt(first: Option<nat>, bhs: map<nat, Bh>, list: seq<nat>, list0: seq<nat>, k: nat)
    requires Linked(first, bhs, list) && EndsWith(list0, 0, list) && k < |list0|
    ensures list0[k] in bhs && bhs[list0[k]].next == After(list0, k)
  {
    var i := |list| - |list0| + k;
    assert SamePlace(list0, list, k) && NextOk(bhs, list, i);
    assert k + 1 < |list0| ==> SamePlace(list0, list, k + 1);
  }

  /** Neither cancelled nor deleted */
  predicate Spared(causes: set<Event>, id: nat) { Withdrawn(id) !in causes && Deleted(id) !in causes }

  /** Whoever was due at the start of a walk and is not cancelled or deleted by a callback is invoked in it. */
  lemma SparedInvoked(first: Option<nat>, s: State, log: seq<Event>, turns: seq<nat>, causes: set<Event>, id: nat)
    requires Linked(first, s.bhs, s.list) && Served(DueSet(s.bhs), |s.log|, s.list, log, turns, |s.list|)
    requires Explained(causes, log, |s.log|) && Due(s.bhs, id) && Spared(causes, id)
    ensures InvokedSince(log, |s.log|, id)
  {
    assert Listed(s.list, id);
    ServedInvoked(DueSet(s.bhs), |s.log|, s.list, log, turns, id);
  }

  // ---- A walk whose callbacks change nothing ------------------------------------------------------------

  /** Due, and not only on idle: invoking it is progress. */
  predicate Busy(bhs: map<nat, Bh>, id: nat) { Due(bhs, id) && !bhs[id].idle }

  ghost predicate BusyBefore(s: State, k: nat)
    requires k <= |s.list|
  {
    exists j :: 0 <= j < k && Busy(s.bhs, s.list[j])
  }

  /** Being invoked takes back the schedule. */
  function AfterCall(bhs: map<nat, Bh>, id: nat): map<nat, Bh> {
    if Due(bhs, id) then bhs[id := bhs[id].(scheduled := false, idle := false)] else bhs
  }

  /** The bottom halves from place k on are as they were. */
  ghost predicate Quiet(s: State, t: State, k: nat)
    requires k <= |s.list|
  {
    t.list == s.list && forall j {:trigger s.list[j]} | k <= j < |s.list| ::
      s.list[j] in t.bhs && s.list[j] in s.bhs
      && t.bhs[s.list[j]] == s.bhs[s.list[j]]
  }

  /** If callbacks change nothing, the walk has come to place k with what lies ahead as it was, and reports progress as
      it should. */
  ghost predicate QuietWalk(callbacks: Runs, left: Runs, s: State, t: State, k: nat, ret: bool) {
    callbacks == NoMore ==> k <= |s.list| && left == NoMore && Quiet(s, t, k) && (ret <==> BusyBefore(s, k))
  }

  lemma QuietStart(first: Option<nat>, callbacks: Runs, s: State)
    requires Linked(first, s.bhs, s.list)
    ensures QuietWalk(callbacks, callbacks, s, s, 0, false)
  {
    assert forall j {:trigger s.list[j]} | 0 <= j < |s.list| :: NextOk(s.bhs, s.list, j);
  }

  lemma QuietOneMore(first: Option<nat>, callbacks: Runs, left: Runs, left': Runs, s: State, t: State, u: State, k: nat,
                     ret: bool, progress: bool)
    requires Linked(first, s.bhs, s.list) && k < |s.list| && QuietWalk(callbacks, left, s, t, k, ret)
    requires left == NoMore ==>
             left' == NoMore && u.list == t.list && u.bhs == AfterCall(t.bhs, s.list[k])
               && progress == Busy(t.bhs, s.list[k])
    ensures QuietWalk(callbacks, left', s, u, k + 1, ret || progress)
  {
    if callbacks == NoMore { QuietAhead(first, s, t, u, k); }
  }

  lemma QuietAhead(first: Option<nat>, s: State, t: State, u: State, k: nat)
    requires Linked(first, s.bhs, s.list) && k < |s.list| && Quiet(s, t, k) && u.list == t.list
             && u.bhs == AfterCall(t.bhs, s.list[k])
    ensures Quiet(s, u, k + 1)
  {
    forall j | k < j < |s.list|
      ensures s.list[j] in u.bhs && u.bhs[s.list[j]] == s.bhs[s.list[j]]
    {
      assert Differ(s.list, k, j);
    }
  }

  lemma QuietEnd(first: Option<nat>, callbacks: Runs, left: Runs, s: State, t: State, ret: bool)
    requires Linked(first, s.bhs, s.list) && QuietWalk(callbacks, left, s, t, |s.list|, ret)
    ensures callbacks == NoMore ==> (ret <==> exists id :: Busy(s.bhs, id))
  {
    if id :| Busy(s.bhs, id) { assert Listed(s.list, id); }
  }

  // ---- Progress -----------------------------------------------------------------------------------------

  /** A turn from time a to time b in which id was invoked that was not scheduled only on idle */
  ghost predicate BusyTurn(log: seq<Event>, a: nat, b: nat, id: nat) {
    a < b <= |log| && log[a] == Invoked(id) && id in Pending(log, a) && !Pending(log, a)[id]
  }

  /** One of the first k turns of a walk was progress. */
  ghost predicate BusyTurns(log: seq<Event>, list: seq<nat>, turns: seq<nat>, k: nat)
    requires k <= |list| && k < |turns|
  {
    exists i :: 0 <= i < k && BusyTurn(log, turns[i], turns[i + 1], list[i])
  }

  lemma BusyTurnLater(log: seq<Event>, log': seq<Event>, a: nat, b: nat, id: nat)
    requires GoesOn(log, log') && a <= b <= |log|
    ensures BusyTurn(log', a, b, id) <==> BusyTurn(log, a, b, id)
  {
    PendingKept(log, log', a);
    if a < b { assert log'[a] == log[a]; }
  }

  lemma BusyTurnsLater(due: set<nat>, from: nat, list: seq<nat>, log: seq<Event>, log': seq<Event>, turns: seq<nat>,
                       k: nat)
    requires Served(due, from, list, log, turns, k) && GoesOn(log, log')
    ensures BusyTurns(log', list, turns, k) <==> BusyTurns(log, list, turns, k)
  {
    forall i | 0 <= i < k
      ensures BusyTurn(log', turns[i], turns[i + 1], list[i]) <==> BusyTurn(log, turns[i], turns[i + 1], list[i])
    {
      assert TurnOk(due, from, log, turns[i], turns[i + 1], list[i]);
      BusyTurnLater(log, log', turns[i], turns[i + 1], list[i]);
    }
  }

  lemma BusyOneMore(log: seq<Event>, list: seq<nat>, turns: seq<nat>, k: nat, b: nat)
    requires k < |list| && |turns| == k + 1
    ensures BusyTurns(log, list, turns + [b], k + 1) <==>
              BusyTurns(log, list, turns, k) || BusyTurn(log, turns[k], b, list[k])
  {
    var turns' := turns + [b];
    if BusyTurns(log, list, turns, k) {
      var i :| 0 <= i < k && BusyTurn(log, turns[i], turns[i + 1], list[i]);
      assert BusyTurn(log, turns'[i], turns'[i + 1], list[i]);
    }
    if BusyTurn(log, turns[k], b, list[k]) { assert BusyTurn(log, turns'[k], turns'[k + 1], list[k]); }
  }

  // ---- What operations do -------------------------------------------------------------------------------

  /** The state in which the callback of id starts, if it is due: the schedule has been taken back. */
  ghost function Called(s: State, id: nat): State {
    if Due(s.bhs, id) then s.(bhs := AfterCall(s.bhs, id), log := s.log + [Invoked(id)]) else s
  }

  /** The whole of aio_bh_poll */
  ghost predicate PollOk(s: State, walking: nat, t: State, callbacks: Runs, turns: seq<nat>, ret: bool) {
    && Later(s, walking, t) && Served(DueSet(s.bhs), |s.log|, s.list, t.log, turns, |s.list|)
    && Explained(RunsCauses(callbacks), t.log, |s.log|) && (ret <==> BusyTurns(t.log, s.list, turns, |s.list|))
    && (forall id :: Due(s.bhs, id) && Spared(RunsCauses(callbacks), id) ==> InvokedSince(t.log, |s.log|, id))
    && (walking == 0 ==> forall id :: id in t.bhs ==> !t.bhs[id].deleted)
  }

  /** One operation; on a bottom half that is not there, nothing happens. */
  ghost predicate OpDone(op: Op, s: State, walking: nat, t: State) {
    match op
    case New => exists id :: id !in s.bhs && t == Created(s, Head(s.list), id)
    case Schedule(id, idle) =>
      t == if id in s.bhs && !s.bhs[id].scheduled
           then Flagged(s, id, s.bhs[id].(scheduled := true, idle := idle), Scheduled(id, idle)) else s
    case Cancel(id) =>
      t == if id in s.bhs then Flagged(s, id, s.bhs[id].(scheduled := false), Withdrawn(id)) else s
    case Delete(id) =>
      t == if id in s.bhs then Flagged(s, id, s.bhs[id].(scheduled := false, deleted := true), Deleted(id)) else s
    case Poll(callbacks) => exists turns, ret :: PollOk(s, walking, t, callbacks, turns, ret)
  }

  /** A run of operations, one after the other */
  ghost predicate Ran(run: Run, s: State, walking: nat, t: State) {
    match run
    case Stop => t == s
    case Then(op, rest) => exists m: State :: OpDone(op, s, walking, m) && Ran(rest, m, walking, t)
  }

  // ---- A walk ---------------------------------------------------------------------------------------------

  /** A walk that started in s has come to place k. */
  ghost predicate WalkOk(s: State, t: State, walking: nat, callbacks: Runs, left: Runs, turns: seq<nat>, k: nat,
                         ret: bool) {
    && Later(s, walking, t) && (left == callbacks || left < callbacks)
    && Served(DueSet(s.bhs), |s.log|, s.list, t.log, turns, k) && turns[k] == |t.log|
    && (ret <==> BusyTurns(t.log, s.list, turns, k))
    && RunsCauses(left) <= RunsCauses(callbacks) && Explained(RunsCauses(callbacks), t.log, |s.log|)
    && QuietWalk(callbacks, left, s, t, k, ret)
  }

  /** What a turn of bottom half id does: whoever is due is invoked, with its schedule taken back before, and nothing
      else happens but what its callback does. */
  ghost predicate VisitOk(t: State, u: State, walking: nat, id: nat, callbacks: Runs, left: Runs, progress: bool) {
    && Later(t, walking, u) && Later(Called(t, id), walking, u) && progress == Busy(t.bhs, id)
    && left == (if Due(t.bhs, id) && callbacks.Next? then callbacks.rest else callbacks)
    && (Due(t.bhs, id) ==> |t.log| < |u.log| && u.log[|t.log|] == Invoked(id))
    && (if Due(t.bhs, id) && callbacks.Next? then Ran(callbacks.run, Called(t, id), walking, u) else u == Called(t, id))
    && Explained(RunsCauses(callbacks), u.log, |t.log|)
  }

  lemma VisitDone(s: State, t: State, u: State, walking: nat, id: nat, callbacks: Runs, left: Runs)
    requires Due(s.bhs, id) && Later(s, walking, t) && t == Called(s, id)
    requires Later(t, walking, u) && Explained(RunsCauses(callbacks), u.log, |t.log|)
    requires left == (if callbacks.Next? then callbacks.rest else NoMore)
    requires if callbacks.Next? then Ran(callbacks.run, t, walking, u) else u == t
    ensures VisitOk(s, u, walking, id, callbacks, left, !s.bhs[id].idle)
  {
    LaterTrans(s, walking, t, u);
    assert t.log[|s.log|] == Invoked(id);
    ExplainedTrans(RunsCauses(callbacks), |s.log|, t.log, u.log);
  }

  lemma VisitNone(s: State, walking: nat, id: nat, callbacks: Runs)
    requires !Due(s.bhs, id)
    ensures VisitOk(s, s, walking, id, callbacks, callbacks, false)
  {
    if walking > 0 { assert forall i: nat | i < |s.list| :: SamePlace(s.list, s.list, i); }
  }

  /** A turn is progress if it invokes somebody who was not scheduled only on idle. */
  lemma TurnIsBusy(t: State, u: State, walking: nat, id: nat, callbacks: Runs, left: Runs, progress: bool)
    requires VisitOk(t, u, walking, id, callbacks, left, progress) && SchedulesAgree(t.bhs, t.log)
    ensures BusyTurn(u.log, |t.log|, |u.log|, id) <==> progress
  {
    PendingKept(t.log, u.log, |t.log|);
  }

  lemma TurnOkVisit(s: State, t: State, u: State, walking: nat, id: nat)
    requires Later(s, walking, t) && GoesOn(t.log, u.log)
    requires if Due(t.bhs, id) then |t.log| < |u.log| && u.log[|t.log|] == Invoked(id) else u.log == t.log
    ensures TurnOk(DueSet(s.bhs), |s.log|, u.log, |t.log|, |u.log|, id)
  {
    if Due(s.bhs, id) && !Due(t.bhs, id) { assert Handled(t.log, |s.log|, id); }
  }

  lemma WalkOneMore(first: Option<nat>, s: State, t: State, u: State, walking: nat, callbacks: Runs, left: Runs,
                    left': Runs,
                    turns: seq<nat>, k: nat, ret: bool, progress: bool) returns (turns': seq<nat>)
    requires Linked(first, s.bhs, s.list) && k < |s.list| && WalkOk(s, t, walking, callbacks, left, turns, k, ret)
    requires VisitOk(t, u, walking, s.list[k], left, left', progress) && SchedulesAgree(t.bhs, t.log)
    ensures WalkOk(s, u, walking, callbacks, left', turns', k + 1, ret || progress)
  {
    QuietOneMore(first, callbacks, left, left', s, t, u, k, ret, progress);
    TurnOkVisit(s, t, u, walking, s.list[k]);
    TurnIsBusy(t, u, walking, s.list[k], left, left', progress);
    BusyTurnsLater(DueSet(s.bhs), |s.log|, s.list, t.log, u.log, turns, k);
    BusyOneMore(u.log, s.list, turns, k, |u.log|);
    turns' := ServedOneMore(DueSet(s.bhs), |s.log|, s.list, t.log, u.log, turns, k);
    ExplainedMore(RunsCauses(left), RunsCauses(callbacks), u.log, |t.log|);
    ExplainedTrans(RunsCauses(callbacks), |s.log|, t.log, u.log);
    LaterTrans(s, walking, t, u);
  }

  /** Whoever is not deleted is still there, with the same flags. */
  ghost predicate OthersKept(bhs: map<nat, Bh>, bhs': map<nat, Bh>) {
    forall id :: id in bhs && !bhs[id].deleted ==> id in bhs' && bhs'[id] == bhs[id].(next := bhs'[id].next)
  }

  lemma WithoutKeeps(bhs0: map<nat, Bh>, bhs: map<nat, Bh>, list: seq<nat>, k: nat)
    requires OthersKept(bhs0, bhs) && k < |list| && list[k] in bhs && bhs[list[k]].deleted
             && (k > 0 ==> list[k - 1] in bhs)
    ensures OthersKept(bhs0, BhsWithout(bhs, list, k))
  {
  }

  class AioContext {
    var first: Option<nat>
    var bhs: map<nat, Bh>
    var walking: nat
    var unused: nat
    ghost var list: seq<nat>
    ghost var freed: set<nat>
    ghost var gone: set<nat>
    ghost var log: seq<Event>

    ghost predicate Valid()
      reads this
    {
      StateOk(Now(), first, gone, unused)
    }

    ghost function Now(): State
      reads this
    {
      State(list, bhs, freed, log)
    }

    constructor ()
      ensures Valid() && walking == 0 && bhs == map[]
    {
      first, bhs, walking, unused := None, map[], 0, 0;
      list, freed, gone, log := [], {}, {}, [];
    }

    /** aio_bh_new: at the head of the list */
    method New() returns (id: nat)
      requires Valid()
      modifies this
      ensures Valid() && walking == old(walking) && Later(old(Now()), walking, Now())
      ensures id !in old(bhs) && bhs == old(bhs)[id := Bh(old(first), false, false, false)]
      ensures list == [id] + old(list) && log == old(log)
    {
      id := unused;
      ghost var s := Now();
      NewOk(s, first, gone, unused);
      NewLater(s, walking, first, id);
      bhs, first, unused := bhs[id := Bh(first, false, false, false)], Some(id), unused + 1;
      list := [id] + list;
      assert Now() == Created(s, old(first), id);
    }

    /** One bottom half changes, with an event. */
    method Flag(id: nat, scheduled: bool, idle: bool, deleted: bool, ghost e: Event)
      requires Valid() && id in bhs && EventFits(bhs, id, Bh(bhs[id].next, scheduled, idle, deleted), e)
      modifies this`bhs, this`gone, this`log
      ensures Valid() && bhs == old(bhs)[id := Bh(old(bhs[id].next), scheduled, idle, deleted)] && log == old(log) + [e]
      ensures Later(old(Now()), walking, Now())
    {
      ghost var s := Now();
      var b := Bh(bhs[id].next, scheduled, idle, deleted);
      FlagsOk(s, first, gone, unused, id, b, e);
      FlagsLater(s, walking, id, b, e);
      bhs := bhs[id := b];
      log, gone := log + [e], if e.Deleted? then gone + {id} else gone;
      assert Now() == Flagged(s, id, b, e);
    }

    /** qemu_bh_schedule and qemu_bh_schedule_idle */
    method Schedule(id: nat, idle: bool)
      requires Valid() && id in bhs
      modifies this`bhs, this`gone, this`log
      ensures Valid() && Later(old(Now()), walking, Now())
      ensures bhs == if old(bhs[id].scheduled) then old(bhs)
              else old(bhs)[id := old(bhs[id]).(scheduled := true, idle := idle)]
      ensures log == old(log) + if old(bhs[id].scheduled) then [] else [Scheduled(id, idle)]
    {
      if bhs[id].scheduled {
        return;
      }
      Flag(id, true, idle, bhs[id].deleted, Scheduled(id, idle));
    }

    /** qemu_bh_cancel */
    method Cancel(id: nat)
      requires Valid() && id in bhs
      modifies this`bhs, this`gone, this`log
      ensures Valid() && Later(old(Now()), walking, Now())
      ensures bhs == old(bhs)[id := old(bhs[id]).(scheduled := false)] && log == old(log) + [Withdrawn(id)]
    {
      Flag(id, false, bhs[id].idle, bhs[id].deleted, Withdrawn(id));
    }

    /** qemu_bh_delete */
    method Delete(id: nat)
      requires Valid() && id in bhs
      modifies this`bhs, this`gone, this`log
      ensures Valid() && Later(old(Now()), walking, Now())
      ensures bhs == old(bhs)[id := old(bhs[id]).(scheduled := false, deleted := true)]
              && log == old(log) + [Deleted(id)]
    {
      Flag(id, false, bhs[id].idle, true, Deleted(id));
    }

    /** Unlinks and frees bh, which *bhp points at; None stands for the address of first_bh. */
    method Free(bhp: Option<nat>, bh: nat, ghost k: nat)
      requires Valid() && walking == 0 && k < |list| && bhp == (if k == 0 then None else Some(list[k - 1]))
      requires bh == list[k] && bh in bhs && bhs[bh].deleted && (k > 0 ==> list[k - 1] in bhs)
      modifies this`first, this`bhs, this`list, this`freed, this`log
      ensures Valid() && Later(old(Now()), 0, Now())
      ensures list == Without(old(list), k) && bhs == old(BhsWithout(bhs, list, k)) && freed == old(freed) + {bh}
      ensures Explained({}, log, |old(log)|)
    {
      ghost var s := Now();
      FreeOk(s, first, gone, unused, k);
      FreeLater(s, k);
      if bhp.None? {
        first, bhs := bhs[bh].next, bhs - {bh};
      } else {
        bhs := bhs[bhp.value := bhs[bhp.value].(next := bhs[bh].next)] - {bh};
      }
      list, freed, log := Without(list, k), freed + {bh}, log + [Freed(bh)];
      assert Now() == Unlinked(s, k);
    }

    /** The sweep has come to place k: bh is there, and *bhp points at it. */
    ghost predicate SweepAt(s0: State, k: nat, bhp: Option<nat>, bh: Option<nat>)
      reads this
    {
      && Valid() && Later(s0, 0, Now()) && OthersKept(s0.bhs, bhs) && Explained({}, log, |s0.log|)
      && k <= |list| && bhp == (if k == 0 then None else Some(list[k - 1])) && Clean(bhs, list, k)
      && bh == if k < |list| then Some(list[k]) else None
    }

    method SweepFree(ghost s0: State, ghost k: nat, bhp: Option<nat>, bh: nat) returns (next: Option<nat>)
      requires walking == 0 && SweepAt(s0, k, bhp, Some(bh)) && bh in bhs && bhs[bh].deleted
      modifies this`first, this`bhs, this`list, this`freed, this`log
      ensures SweepAt(s0, k, bhp, next) && |list| == |old(list)| - 1
    {
      ghost var s := Now();
      PointerIs(first, bhs, list, k);
      CleanWithout(bhs, list, k);
      WithoutKeeps(s0.bhs, bhs, list, k);
      Free(bhp, bh, k);
      LaterTrans(s0, 0, s, Now());
      ExplainedTrans({}, |s0.log|, s.log, log);
      PointerIs(first, bhs, list, k);
      next := if bhp.None? then first else bhs[bhp.value].next;
    }

    /** The end of aio_bh_poll: deleted bottom halves are unlinked and freed. */
    method Sweep()
      requires Valid() && walking == 0
      modifies this`first, this`bhs, this`list, this`freed, this`log
      ensures Valid() && Later(old(Now()), 0, Now()) && OthersKept(old(bhs), bhs)
              && forall id :: id in bhs ==> !bhs[id].deleted
      ensures Explained({}, log, |old(log)|)
    {
      ghost var s0 := Now();
      var bhp: Option<nat> := None;
      ghost var k := 0;
      PointerIs(first, bhs, list, 0);
      var bh := first;
      while bh.Some?
        invariant SweepAt(s0, k, bhp, bh)
        decreases |list| - k
      {
        PointerIs(first, bhs, list, k);
        if bhs[bh.value].deleted {
          bh := SweepFree(s0, k, bhp, bh.value);
        } else {
          PointerIs(first, bhs, list, k + 1);
          assert Kept(bhs, list, k);
          bhp, bh, k := bh, bhs[bh.value].next, k + 1;
        }
      }
      AllClean(first, bhs, list);
    }

    /** The callback of a bottom half runs. */
    method Callback(callbacks: Runs) returns (left: Runs)
      requires Valid()
      modifies this
      ensures Valid() && walking == old(walking) && Later(old(Now()), walking, Now())
      ensures left == (if callbacks.Next? then callbacks.rest else NoMore)
      ensures if callbacks.Next? then Ran(callbacks.run, old(Now()), walking, Now()) else Now() == old(Now())
      ensures Explained(RunsCauses(callbacks), log, |old(log)|)
      decreases callbacks, 0
    {
      left := callbacks;
      if left.Next? {
        RunOps(left.run);
        ExplainedMore(RunCauses(left.run), RunsCauses(callbacks), log, |old(log)|);
        left := left.rest;
      }
    }

    /** One turn of aio_bh_poll's loop: a bottom half that is due is invoked, and its callback does what it likes. */
    method Visit(id: nat, callbacks: Runs) returns (progress: bool, left: Runs)
      requires Valid() && walking > 0 && id in bhs
      modifies this
      ensures Valid() && walking == old(walking) && VisitOk(old(Now()), Now(), walking, id, callbacks, left, progress)
      decreases callbacks, 1
    {
      progress, left := false, callbacks;
      ghost var s := Now();
      if !bhs[id].deleted && bhs[id].scheduled {
        progress := !bhs[id].idle;
        Flag(id, false, false, false, Invoked(id));
        ghost var t := Now();
        left := Callback(callbacks);
        VisitDone(s, t, Now(), walking, id, callbacks, left);
      } else {
        VisitNone(s, walking, id, callbacks);
      }
    }

    /** The walk has come to place k of the list that it started on: bh is there. */
    ghost predicate InWalk(s: State, callbacks: Runs, left: Runs, turns: seq<nat>, k: nat, bh: Option<nat>, ret: bool)
      reads this
    {
      && Valid() && WalkOk(s, Now(), walking, callbacks, left, turns, k, ret)
      && bh == if k < |s.list| then Some(s.list[k]) else None
    }

    method Turn(ghost s: State, ghost first0: Option<nat>, ghost callbacks: Runs, left0: Runs, ghost turns0: seq<nat>,
                ghost k: nat, bh: nat, ret0: bool)
      returns (next: Option<nat>, left: Runs, ghost turns: seq<nat>, ret: bool)
      requires walking > 0 && Linked(first0, s.bhs, s.list) && InWalk(s, callbacks, left0, turns0, k, Some(bh), ret0)
      modifies this
      ensures walking == old(walking) && InWalk(s, callbacks, left, turns, k + 1, next, ret)
      decreases left0, 2
    {
      WalkAt(first, bhs, list, s.list, k);
      ghost var t := Now();
      next := bhs[bh].next;
      var progress;
      progress, left := Visit(bh, left0);
      ret := ret0;
      if progress {
        ret := true;
      }
      turns := WalkOneMore(first0, s, t, Now(), walking, callbacks, left0, left, turns0, k, ret0, progress);
    }

    /** The loop of aio_bh_poll: everybody has a turn, in which whoever is due is invoked. If callbacks change
        nothing, it reports progress exactly if somebody was due and not only on idle. */
    method Walk(callbacks: Runs) returns (ret: bool, ghost turns: seq<nat>)
      requires Valid() && walking > 0
      modifies this
      ensures Valid() && walking == old(walking) && Later(old(Now()), walking, Now())
      ensures Served(DueSet(old(bhs)), |old(log)|, old(list), log, turns, |old(list)|)
              && Explained(RunsCauses(callbacks), log, |old(log)|)
      ensures ret <==> BusyTurns(log, old(list), turns, |old(list)|)
      ensures callbacks == NoMore ==> (ret <==> exists id :: Busy(old(bhs), id))
      decreases callbacks, 3
    {
      ghost var s := Now();
      ghost var first0 := first;
      ret, turns := false, [|log|];
      var left := callbacks;
      PointerIs(first, bhs, list, 0);
      QuietStart(first, callbacks, s);
      var bh := first;
      ghost var k := 0;
      while bh.Some?
        invariant walking == old(walking) && InWalk(s, callbacks, left, turns, k, bh, ret)
        decreases |s.list| - k
      {
        bh, left, turns, ret := Turn(s, first0, callbacks, left, turns, k, bh.value, ret);
        k := k + 1;
      }
      QuietEnd(first0, callbacks, left, s, Now(), ret);
    }

    /** aio_bh_poll: everybody who was due when it started is invoked when its turn comes, unless it has been invoked,
        cancelled or deleted before; in any case if no callback cancels or deletes it. It reports progress exactly if
        somebody was invoked in its turn that was not scheduled only on idle. The outermost call leaves no deleted
        bottom half behind. */
    method Poll(callbacks: Runs) returns (ret: bool, ghost turns: seq<nat>)
      requires Valid()
      modifies this
      ensures Valid() && walking == old(walking) && PollOk(old(Now()), walking, Now(), callbacks, turns, ret)
      ensures callbacks == NoMore ==> (ret <==> exists id :: Busy(old(bhs), id))
      decreases callbacks, 4
    {
      ghost var s := Now();
      ghost var first0 := first;
      walking := walking + 1;
      ret, turns := Walk(callbacks);
      LaterFreely(s, walking, walking - 1, Now());
      walking := walking - 1;
      if walking == 0 {
        ghost var t := Now();
        Sweep();
        ServedLater(DueSet(s.bhs), |s.log|, s.list, t.log, log, turns, |s.list|);
        BusyTurnsLater(DueSet(s.bhs), |s.log|, s.list, t.log, log, turns, |s.list|);
        ExplainedMore({}, RunsCauses(callbacks), log, |t.log|);
        ExplainedTrans(RunsCauses(callbacks), |s.log|, t.log, log);
        LaterTrans(s, 0, t, Now());
      }
      forall id | Due(s.bhs, id) && Spared(RunsCauses(callbacks), id)
        ensures InvokedSince(log, |s.log|, id)
      {
        SparedInvoked(first0, s, log, turns, RunsCauses(callbacks), id);
      }
    }

    /** One operation */
    method RunOp(op: Op)
      requires Valid()
      modifies this
      ensures Valid() && walking == old(walking) && Later(old(Now()), walking, Now())
      ensures OpDone(op, old(Now()), walking, Now()) && Explained(OpCauses(op), log, |old(log)|)
      decreases op
    {
      match op {
        case New =>
          var _ := New();
        case Schedule(id, idle) =>
          ExplainedOne(OpCauses(op), log, Scheduled(id, idle));
          if id in bhs { Schedule(id, idle); }
        case Cancel(id) =>
          ExplainedOne(OpCauses(op), log, Withdrawn(id));
          if id in bhs { Cancel(id); }
        case Delete(id) =>
          ExplainedOne(OpCauses(op), log, Deleted(id));
          if id in bhs { Delete(id); }
        case Poll(callbacks) =>
          var _, _ := Poll(callbacks);
      }
    }

    /** Any run of operations: each is done, the log stays in order whatever callbacks do, however deep they poll, and
        nobody is withdrawn or deleted unless the run asks for it at some depth. */
    method RunOps(run: Run)
      requires Valid()
      modifies this
      ensures Valid() && walking == old(walking) && Later(old(Now()), walking, Now())
      ensures Ran(run, old(Now()), walking, Now()) && Explained(RunCauses(run), log, |old(log)|)
      decreases run
    {
      if run.Then? {
        ghost var s := Now();
        RunOp(run.op);
        ghost var t := Now();
        ExplainedMore(OpCauses(run.op), RunCauses(run), log, |s.log|);
        RunOps(run.rest);
        ExplainedMore(RunCauses(run.rest), RunCauses(run), log, |t.log|);
        ExplainedTrans(RunCauses(run), |s.log|, t.log, log);
        LaterTrans(s, walking, t, Now());
      }
    }
  }
}
