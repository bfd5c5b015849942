/** Descriptor handlers in aio-posix.c: `aio_dispatch` walks their list while their callbacks register, remove and
    dispatch again, and removal is put off while a walk is under way. */
module FdHandlers {
  import opened AioLog
  import opened Options

  /** Conditions on a descriptor: G_IO_IN, G_IO_OUT, G_IO_HUP and G_IO_ERR */
  datatype Conds = Conds(input: bool, output: bool, hup: bool, err: bool) {
    predicate Reads() { input || hup || err }

    predicate Writes() { output || err }
  }

  const NO_CONDS := Conds(false, false, false, false)

  /** AioHandler; `read` and `write` say which callbacks it has, and so which events it waits for. */
  datatype Node = Node(fd: int, read: bool, write: bool, revents: Conds, deleted: bool) {
    /** revents & events */
    function Ready(): Conds {
      Conds(revents.input && read, revents.output && write, revents.hup && read, revents.err && (read || write))
    }
  }

  /** What callbacks, timers and the program do: register or remove a handler, take in the result of a poll, dispatch. A
      dispatch runs further callbacks, one after the other, and then timers. */
  datatype Op = SetHandler(fd: int, read: bool, write: bool) | Polled(fd: int, conds: Conds)
      | Dispatch(callbacks: Runs, timers: Run)

  datatype Run = Stop | Then(op: Op, rest: Run)

  datatype Runs = NoMore | Next(run: Run, rest: Runs)

  /** The descriptors that a run registers, removes or polls, at whatever depth */
  function OpFds(op: Op): set<int> {
    match op
    case SetHandler(fd, _, _) => {fd}
    case Polled(fd, _) => {fd}
    case Dispatch(callbacks, timers) => RunsFds(callbacks) + RunFds(timers)
  }

  function RunFds(run: Run): set<int> {
    match run
    case Stop => {}
    case Then(op, rest) => OpFds(op) + RunFds(rest)
  }

  function RunsFds(runs: Runs): set<int> {
    match runs
    case NoMore => {}
    case Next(run, rest) => RunFds(run) + RunsFds(rest)
  }

  // ---- State --------------------------------------------------------------------------------------------

  /** How many of a handler's callbacks are due */
  function Calls(n: Node): nat {
    if n.deleted then 0
    else (if n.read && n.revents.Reads() then 1 else 0) + (if n.write && n.revents.Writes() then 1 else 0)
  }

  /** Due to be invoked: a condition has come up that one of its callbacks is for. */
  predicate Due(nodes: map<nat, Node>, id: nat) {
    id in nodes && !nodes[id].deleted
      && ((nodes[id].read && nodes[id].revents.Reads()) || (nodes[id].write && nodes[id].revents.Writes()))
  }

  function DueSet(nodes: map<nat, Node>): set<nat> { set id | id in nodes && Due(nodes, id) }

  ghost predicate There(nodes: map<nat, Node>, list: seq<nat>, i: nat)
    requires i < |list|
  {
    list[i] in nodes
  }

  /** The handler at place i is not for this descriptor, or deleted. */
  ghost predicate Other(nodes: map<nat, Node>, list: seq<nat>, i: nat, fd: int)
    requires i < |list|
  {
    list[i] in nodes && (nodes[list[i]].fd == fd ==> nodes[list[i]].deleted)
  }

  /** The list holds the handlers, each once. */
  ghost predicate ListOk(nodes: map<nat, Node>, list: seq<nat>) {
    && (forall i {:trigger There(nodes, list, i)} | 0 <= i < |list| :: There(nodes, list, i))
    && (forall id {:trigger Listed(list, id)} | id in nodes :: Listed(list, id))
    && (forall i, j {:trigger Differ(list, i, j)} | 0 <= i < j < |list| :: Differ(list, i, j))
  }

  predicate Clash(nodes: map<nat, Node>, a: nat, b: nat)
    requires a in nodes && b in nodes
  {
    a != b && !nodes[a].deleted && !nodes[b].deleted && nodes[a].fd == nodes[b].fd
  }

  /** A descriptor has at most one handler that is not deleted. */
  ghost predicate OneEach(nodes: map<nat, Node>) {
    forall a, b {:trigger Clash(nodes, a, b)} | a in nodes && b in nodes :: !Clash(nodes, a, b)
  }

  ghost predicate LogAgrees(nodes: map<nat, Node>, freed: set<nat>, gone: set<nat>, log: seq<Event>) {
    && LogOk(log) && freed == FreedIn(log) && gone == Gone(log)
    && forall id :: id in gone <==> id in freed || (id in nodes && nodes[id].deleted)
  }

  ghost predicate IdsOk(nodes: map<nat, Node>, freed: set<nat>, gone: set<nat>, unused: nat) {
    && (forall id :: id in nodes ==> id < unused && id !in freed)
    && (forall id :: id in gone ==> id < unused)
  }

  /** The descriptor of every handler there is or has been */
  ghost predicate FdsOk(nodes: map<nat, Node>, fds: map<nat, int>, unused: nat) {
    && (forall id :: id in nodes ==> id in fds && fds[id] == nodes[id].fd)
    && (forall id :: id in fds ==> id < unused)
  }

  datatype State = State(list: seq<nat>, nodes: map<nat, Node>, freed: set<nat>, fds: map<nat, int>, log: seq<Event>)

  ghost predicate FdsKept(fds: map<nat, int>, fds': map<nat, int>) {
    forall id :: id in fds ==> id in fds' && fds'[id] == fds[id]
  }

  /** Between s and t, only handlers of these descriptors have been withdrawn or deleted; others are there as they were,
      but for their conditions. */
  ghost predicate Only(touched: set<int>, s: State, t: State) {
    && (forall i {:trigger t.log[i]} | |s.log| <= i < |t.log| && TakesBack(t.log[i]) ::
          t.log[i].id in t.fds && t.fds[t.log[i].id] in touched)
    && (forall id :: id in s.nodes && !s.nodes[id].deleted && s.nodes[id].fd !in touched ==>
          id in t.nodes && SameHandler(s.nodes[id], t.nodes[id]))
  }

  predicate SameHandler(a: Node, b: Node) { b == a.(revents := b.revents) }

  lemma OnlyTrans(touched: set<int>, touched': set<int>, touched'': set<int>, s: State, t: State, u: State)
    requires |s.log| <= |t.log| && GoesOn(t.log, u.log) && FdsKept(t.fds, u.fds)
    requires Only(touched, s, t) && Only(touched', t, u) && touched <= touched'' && touched' <= touched''
    ensures Only(touched'', s, u)
  {
    forall i | |s.log| <= i < |u.log| && TakesBack(u.log[i])
      ensures u.log[i].id in u.fds && u.fds[u.log[i].id] in touched''
    {
      if i < |t.log| { assert u.log[i] == t.log[i]; }
    }
  }

  /** What holds of a state between operations */
  ghost predicate StateOk(s: State, gone: set<nat>, unused: nat) {
    && ListOk(s.nodes, s.list) && OneEach(s.nodes) && FdsOk(s.nodes, s.fds, unused)
    && LogAgrees(s.nodes, s.freed, gone, s.log) && IdsOk(s.nodes, s.freed, gone, unused)
  }

  /** What any run of operations keeps */
  ghost predicate Later(s: State, walking: nat, t: State) {
    && GoesOn(s.log, t.log)
    && s.freed <= t.freed
    && (forall id :: Due(s.nodes, id) ==> Due(t.nodes, id) || Handled(t.log, |s.log|, id))
    && (forall id :: id in s.nodes && s.nodes[id].deleted ==> id in t.freed || (id in t.nodes && t.nodes[id].deleted))
    && (walking > 0 ==> t.freed == s.freed && EndsWith(s.list, 0, t.list))
    && FdsKept(s.fds, t.fds)
  }

  lemma LaterTrans(s: State, walking: nat, t: State, u: State)
    requires Later(s, walking, t) && Later(t, walking, u)
    ensures Later(s, walking, u)
  {
    if walking > 0 { EndsWithTrans(s.list, 0, t.list, u.list); }
    forall id | Due(s.nodes, id)
      ensures Due(u.nodes, id) || Handled(u.log, |s.log|, id)
    {
      if !Due(t.nodes, id) {
        HandledGrows(t.log, u.log, |s.log|, id);
      } else if !Due(u.nodes, id) {
        HandledEarlier(u.log, |t.log|, |s.log|, id);
      }
    }
  }

  lemma LaterFreely(s: State, walking: nat, walking': nat, t: State)
    requires Later(s, walking, t) && (walking' > 0 ==> walking > 0)
    ensures Later(s, walking', t)
  {
  }

  /** What is logged when a handler changes to n: at most one event, and one if it was due and is no longer. */
  ghost predicate EventsOk(nodes: map<nat, Node>, id: nat, n: Node, events: seq<Event>)
    requires id in nodes
  {
    && (events == [] || events == [Invoked(id)] || events == [Withdrawn(id)] || events == [Deleted(id)])
    && (events == [] ==> Due(nodes, id) ==> Due(nodes[id := n], id))
    && (events == [Invoked(id)] ==> !n.deleted)
    && (n.deleted <==> nodes[id].deleted || events == [Deleted(id)])
  }

  /** One handler changes. */
  lemma ChangeLater(s: State, walking: nat, id: nat, n: Node, events: seq<Event>)
    requires id in s.nodes && EventsOk(s.nodes, id, n, events)
    ensures Later(s, walking, Changed(s, id, n, events))
  {
    if events != [] { assert (s.log + events)[|s.log|] == events[0]; }
  }

  lemma ChangeLog(nodes: map<nat, Node>, freed: set<nat>, gone: set<nat>, log: seq<Event>, id: nat, n: Node,
                  events: seq<Event>)
    returns (gone': set<nat>)
    requires LogAgrees(nodes, freed, gone, log) && id in nodes && id !in freed && EventsOk(nodes, id, n, events)
    ensures LogAgrees(nodes[id := n], freed, gone', log + events) && gone' <= gone + {id}
  {
    gone' := if events == [Deleted(id)] then gone + {id} else gone;
    if events == [] { assert log + events == log; } else { LogGrows(freed, gone, log, events[0]); }
  }

  lemma ChangeListOk(nodes: map<nat, Node>, list: seq<nat>, id: nat, n: Node)
    requires ListOk(nodes, list) && OneEach(nodes) && id in nodes && n.fd == nodes[id].fd
             && (nodes[id].deleted ==> n.deleted)
    ensures ListOk(nodes[id := n], list) && OneEach(nodes[id := n])
  {
    var nodes' := nodes[id := n];
    forall i | 0 <= i < |list|
      ensures There(nodes', list, i)
    {
      assert There(nodes, list, i);
    }
    forall a, b | a in nodes' && b in nodes'
      ensures !Clash(nodes', a, b)
    {
      assert !Clash(nodes, a, b);
    }
  }

  ghost function Changed(s: State, id: nat, n: Node, events: seq<Event>): State {
    s.(nodes := s.nodes[id := n], log := s.log + events)
  }

  lemma ChangeOk(s: State, gone: set<nat>, unused: nat, id: nat, n: Node, events: seq<Event>) returns (gone': set<nat>)
    requires StateOk(s, gone, unused) && id in s.nodes && n.fd == s.nodes[id].fd && EventsOk(s.nodes, id, n, events)
    ensures StateOk(Changed(s, id, n, events), gone', unused)
  {
    ChangeListOk(s.nodes, s.list, id, n);
    gone' := ChangeLog(s.nodes, s.freed, gone, s.log, id, n, events);
  }

  lemma ChangeOnly(s: State, id: nat, n: Node, events: seq<Event>)
    requires id in s.nodes && n.fd == s.nodes[id].fd && EventsOk(s.nodes, id, n, events)
    requires id in s.fds && s.fds[id] == n.fd
    ensures Only({n.fd}, s, Changed(s, id, n, events))
    ensures SameHandler(s.nodes[id], n) && (events == [] || events == [Invoked(id)]) ==>
              Only({}, s, Changed(s, id, n, events))
  {
  }

  lemma InsertListOk(nodes: map<nat, Node>, list: seq<nat>, id: nat, n: Node)
    requires ListOk(nodes, list) && OneEach(nodes) && id !in nodes
    requires forall a :: a in nodes && nodes[a].fd == n.fd ==> nodes[a].deleted
    ensures ListOk(nodes[id := n], [id] + list) && OneEach(nodes[id := n])
  {
    var nodes', list' := nodes[id := n], [id] + list;
    forall i | 0 <= i < |list'|
      ensures There(nodes', list', i)
    {
      assert i > 0 ==> There(nodes, list, i - 1);
    }
    forall x | x in nodes'
      ensures Listed(list', x)
    {
      if x == id { assert list'[0] == id; } else { assert Listed(list, x); }
    }
    forall i, j | 0 <= i < j < |list'|
      ensures Differ(list', i, j)
    {
      assert There(nodes, list, j - 1) && (i > 0 ==> Differ(list, i - 1, j - 1));
    }
    forall a, b | a in nodes' && b in nodes'
      ensures !Clash(nodes', a, b)
    {
      assert a != id && b != id ==> !Clash(nodes, a, b);
    }
  }

  lemma RemoveListOk(nodes: map<nat, Node>, list: seq<nat>, k: nat, list': seq<nat>)
    requires ListOk(nodes, list) && OneEach(nodes) && IsWithout(list, k, list')
    ensures ListOk(nodes - {list[k]}, list') && OneEach(nodes - {list[k]})
  {
    var nodes' := nodes - {list[k]};
    forall i | 0 <= i < |list'|
      ensures There(nodes', list', i)
    {
      var j := if i < k then i else i + 1;
      assert StillAt(list, k, list', i);
      assert There(nodes, list, j) && (i < k ==> Differ(list, j, k)) && (i >= k ==> Differ(list, k, j));
    }
    forall id | id in nodes'
      ensures Listed(list', id)
    {
      assert Listed(list, id);
      var j :| 0 <= j < |list| && list[j] == id;
      assert StillAt(list, k, list', if j < k then j else j - 1);
    }
    forall i, j | 0 <= i < j < |list'|
      ensures Differ(list', i, j)
    {
      assert StillAt(list, k, list', i) && StillAt(list, k, list', j);
      assert Differ(list, if i < k then i else i + 1, if j < k then j else j + 1);
    }
    forall a, b | a in nodes' && b in nodes'
      ensures !Clash(nodes', a, b)
    {
      assert !Clash(nodes, a, b);
    }
  }

  /** A handler leaves: the log says that it is deleted, if it does not yet, and that it is freed. */
  function Leaving(nodes: map<nat, Node>, id: nat): seq<Event>
    requires id in nodes
  {
    (if nodes[id].deleted then [] else [Deleted(id)]) + [Freed(id)]
  }

  lemma LeaveLog(nodes: map<nat, Node>, freed: set<nat>, gone: set<nat>, log: seq<Event>, unused: nat, id: nat)
    requires LogAgrees(nodes, freed, gone, log) && IdsOk(nodes, freed, gone, unused) && id in nodes
    ensures LogAgrees(nodes - {id}, freed + {id}, gone + {id}, log + Leaving(nodes, id))
    ensures IdsOk(nodes - {id}, freed + {id}, gone + {id}, unused)
  {
    if nodes[id].deleted {
      LogGrows(freed, gone, log, Freed(id));
      assert gone + {id} == gone && log + Leaving(nodes, id) == log + [Freed(id)];
    } else {
      LogGrows(freed, gone, log, Deleted(id));
      LogGrows(freed, gone + {id}, log + [Deleted(id)], Freed(id));
      assert log + Leaving(nodes, id) == log + [Deleted(id)] + [Freed(id)];
    }
  }

  lemma LeaveLater(s: State, id: nat, list: seq<nat>)
    requires id in s.nodes
    ensures Later(s, 0, Removed(s, id, list))
  {
    var log := s.log + Leaving(s.nodes, id);
    if !s.nodes[id].deleted { assert log[|s.log|] == Deleted(id); }
  }

  ghost function Removed(s: State, id: nat, list: seq<nat>): State
    requires id in s.nodes
  {
    State(list, s.nodes - {id}, s.freed + {id}, s.fds, s.log + Leaving(s.nodes, id))
  }

  lemma RemoveOk(s: State, gone: set<nat>, unused: nat, k: nat, list: seq<nat>)
    requires StateOk(s, gone, unused) && IsWithout(s.list, k, list) && s.list[k] in s.nodes
    ensures StateOk(Removed(s, s.list[k], list), gone + {s.list[k]}, unused)
    ensures Only({s.nodes[s.list[k]].fd}, s, Removed(s, s.list[k], list))
  {
    RemoveListOk(s.nodes, s.list, k, list);
    LeaveLog(s.nodes, s.freed, gone, s.log, unused, s.list[k]);
  }

  // ---- What operations do -------------------------------------------------------------------------------

  /** The handler of a descriptor */
  predicate Live(nodes: map<nat, Node>, id: nat, fd: int) { id in nodes && nodes[id].fd == fd && !nodes[id].deleted }

  ghost function Inserted(s: State, id: nat, n: Node): State {
    s.(list := [id] + s.list, nodes := s.nodes[id := n], fds := s.fds[id := n.fd])
  }

  /** A handler changes, and is withdrawn if it was due and is so no longer. */
  ghost function Anew(s: State, id: nat, n: Node): State {
    Changed(s, id, n, if Due(s.nodes, id) && !Due(s.nodes[id := n], id) then [Withdrawn(id)] else [])
  }

  /** A handler is deleted: marked while a walk is under way, and for real otherwise */
  ghost predicate Unregistered(s: State, id: nat, walking: nat, t: State)
    requires id in s.nodes
  {
    if walking > 0 then t == Changed(s, id, s.nodes[id].(deleted := true, revents := NO_CONDS), [Deleted(id)])
    else t == Removed(s, id, t.list) && exists k: nat :: IsWithout(s.list, k, t.list) && s.list[k] == id
  }

  /** aio_set_fd_handler */
  ghost predicate SetDone(s: State, fd: int, read: bool, write: bool, walking: nat, t: State) {
    && (forall id :: Live(s.nodes, id, fd) ==>
          if read || write then t == Anew(s, id, s.nodes[id].(read := read, write := write))
          else Unregistered(s, id, walking, t))
    && ((forall id :: !Live(s.nodes, id, fd)) ==>
          if !read && !write then t == s
          else exists id :: id !in s.nodes && t == Inserted(s, id, Node(fd, read, write, NO_CONDS, false)))
  }

  /** The result of a poll */
  ghost predicate PolledDone(s: State, fd: int, conds: Conds, t: State) {
    && (forall id :: Live(s.nodes, id, fd) ==> t == Anew(s, id, s.nodes[id].(revents := conds)))
    && ((forall id :: !Live(s.nodes, id, fd)) ==> t == s)
  }

  /** aio_dispatch */
  ghost predicate DispatchOk(s: State, t: State, callbacks: Runs, timers: Run, turns: seq<nat>) {
    && Served(DueSet(s.nodes), |s.log|, s.list, t.log, turns, |s.list|)
    && Only(RunsFds(callbacks) + RunFds(timers), s, t)
    && forall id :: Due(s.nodes, id) && s.nodes[id].fd !in RunsFds(callbacks) ==> InvokedSince(t.log, |s.log|, id)
  }

  ghost predicate OpDone(op: Op, s: State, walking: nat, t: State) {
    match op
    case SetHandler(fd, read, write) => SetDone(s, fd, read, write, walking, t)
    case Polled(fd, conds) => PolledDone(s, fd, conds, t)
    case Dispatch(callbacks, timers) => exists turns :: DispatchOk(s, t, callbacks, timers, turns)
  }

  /** A run of operations, one after the other */
  ghost predicate Ran(run: Run, s: State, walking: nat, t: State) {
    match run
    case Stop => t == s
    case Then(op, rest) => exists m: State :: OpDone(op, s, walking, m) && Ran(rest, m, walking, t)
  }

  /** What the next callback makes of s */
  ghost predicate CallbackRan(callbacks: Runs, s: State, walking: nat, t: State) {
    if callbacks.Next? then Ran(callbacks.run, s, walking, t) else t == s
  }

  /** The state in which the first callback of a handler starts, if it is due: its conditions have been taken. */
  ghost function Taken(s: State, id: nat): State
    requires id in s.nodes
  {
    Changed(s, id, s.nodes[id].(revents := NO_CONDS), if Due(s.nodes, id) then [Invoked(id)] else [])
  }

  lemma OnlyLive(nodes: map<nat, Node>, fd: int, id: nat)
    requires OneEach(nodes) && Live(nodes, id, fd)
    ensures forall a :: Live(nodes, a, fd) ==> a == id
    ensures forall a :: a in nodes && a != id && nodes[a].fd == fd ==> nodes[a].deleted
  {
    forall a | a in nodes && a != id && nodes[a].fd == fd
      ensures nodes[a].deleted
    {
      assert !Clash(nodes, a, id);
    }
  }

  lemma SetLive(s: State, fd: int, read: bool, write: bool, walking: nat, t: State, id: nat)
    requires OneEach(s.nodes) && Live(s.nodes, id, fd)
    requires if read || write then t == Anew(s, id, s.nodes[id].(read := read, write := write))
             else Unregistered(s, id, walking, t)
    ensures SetDone(s, fd, read, write, walking, t)
  {
    OnlyLive(s.nodes, fd, id);
  }

  lemma PolledLive(s: State, fd: int, conds: Conds, t: State, id: nat)
    requires OneEach(s.nodes) && Live(s.nodes, id, fd) && t == Anew(s, id, s.nodes[id].(revents := conds))
    ensures PolledDone(s, fd, conds, t)
  {
    OnlyLive(s.nodes, fd, id);
  }

  lemma SetNew(s: State, fd: int, read: bool, write: bool, walking: nat, t: State, id: nat)
    requires (forall a :: !Live(s.nodes, a, fd)) && id !in s.nodes && (read || write)
    requires t == Inserted(s, id, Node(fd, read, write, NO_CONDS, false))
    ensures SetDone(s, fd, read, write, walking, t)
  {
  }

  // ---- A walk ---------------------------------------------------------------------------------------------

  /** A walk that started in s has come to place k. */
  ghost predicate WalkOk(s: State, t: State, walking: nat, callbacks: Runs, left: Runs, turns: seq<nat>, k: nat) {
    && Later(s, walking, t) && (left == callbacks || left < callbacks) && RunsFds(left) <= RunsFds(callbacks)
    && Served(DueSet(s.nodes), |s.log|, s.list, t.log, turns, k) && turns[k] == |t.log|
    && Only(RunsFds(callbacks), s, t)
  }

  /** What a turn of handler id does: whoever is due is invoked before anything else happens; without callbacks that
      change anything, once for each condition it is due for, and twice for two conditions also if callbacks do not
      touch its descriptor. */
  ghost predicate VisitOk(t: State, u: State, walking: nat, id: nat, callbacks: Runs, left: Runs)
    requires id in t.nodes
  {
    && Later(t, walking, u) && (left == callbacks || left < callbacks) && RunsFds(left) <= RunsFds(callbacks)
    && (Due(t.nodes, id) ==>
       |t.log| < |u.log| && u.log[|t.log|] == Invoked(id) && (callbacks.Next? ==> left < callbacks))
    && (!Due(t.nodes, id) ==> u.log == t.log)
    && (callbacks == NoMore ==> |u.log| == |t.log| + Calls(t.nodes[id]))
    && (Calls(t.nodes[id]) == 2 && t.nodes[id].fd !in RunsFds(callbacks) ==>
          exists i :: |t.log| < i < |u.log| && u.log[i] == Invoked(id))
    && Only(RunsFds(callbacks), t, u)
  }

  /** The first callback has returned in state mid: if it was for reading, and the handler is not deleted and has a
      callback for writing, that one is called next if it is due; otherwise nothing more happens. */
  ghost predicate SecondOk(mid: State, u: State, walking: nat, id: nat, byRead: bool, writes: bool, left: Runs) {
    if byRead && writes && id in mid.nodes && !mid.nodes[id].deleted && mid.nodes[id].write
    then |mid.log| < |u.log| && u.log[|mid.log|] == Invoked(id)
         && CallbackRan(left, mid.(log := mid.log + [Invoked(id)]), walking, u)
    else u == mid
  }

  /** What is left of the callbacks after one of them */
  function OneLess(callbacks: Runs): Runs { if callbacks.Next? then callbacks.rest else NoMore }

  /** A handler that is due is called, and the first callback returns in state mid. */
  ghost predicate Called(s: State, mid: State, u: State, walking: nat, id: nat, callbacks: Runs)
    requires id in s.nodes
  {
    var n := s.nodes[id];
    && CallbackRan(callbacks, Taken(s, id), walking, mid) && Later(Taken(s, id), walking, mid) && Later(mid, walking, u)
    && SecondOk(mid, u, walking, id, n.read && n.Ready().Reads(), n.Ready().Writes(), OneLess(callbacks))
  }

  lemma VisitDone(s: State, mid: State, u: State, walking: nat, id: nat, callbacks: Runs, left: Runs)
    requires id in s.nodes && Due(s.nodes, id) && Called(s, mid, u, walking, id, callbacks)
    requires Later(s, walking, Taken(s, id)) && Later(Taken(s, id), walking, u)
    requires Only({}, s, Taken(s, id)) && Only(RunsFds(callbacks), Taken(s, id), mid)
    requires Only(RunsFds(callbacks), Taken(s, id), u) && RunsFds(left) <= RunsFds(callbacks)
    requires (left == callbacks || left < callbacks) && (callbacks.Next? ==> left < callbacks)
    requires callbacks == NoMore ==> |u.log| == |s.log| + Calls(s.nodes[id])
    ensures VisitOk(s, u, walking, id, callbacks, left)
  {
    var t := Taken(s, id);
    LaterTrans(s, walking, t, u);
    assert t.log[|s.log|] == Invoked(id);
    OnlyTrans({}, RunsFds(callbacks), RunsFds(callbacks), s, t, u);
    if Calls(s.nodes[id]) == 2 && s.nodes[id].fd !in RunsFds(callbacks) {
      assert SameHandler(s.nodes[id], t.nodes[id]) && SameHandler(t.nodes[id], mid.nodes[id]);
      assert u.log[|mid.log|] == Invoked(id);
    }
  }

  lemma VisitNone(s: State, walking: nat, id: nat, callbacks: Runs)
    requires id in s.nodes && !Due(s.nodes, id) && Later(s, walking, Taken(s, id)) && Only({}, s, Taken(s, id))
    ensures VisitOk(s, Taken(s, id), walking, id, callbacks, callbacks)
  {
  }

  /** The same, with the handler freed at the end if it is deleted and this is the outermost walk. */
  ghost predicate LeftOk(t: State, u: State, walking: nat, id: nat, callbacks: Runs, left: Runs) {
    && Later(t, walking, u) && (left == callbacks || left < callbacks) && RunsFds(left) <= RunsFds(callbacks)
    && (Due(t.nodes, id) ==> |t.log| < |u.log| && u.log[|t.log|] == Invoked(id))
    && (!Due(t.nodes, id) ==> u.log == t.log || (|u.log| == |t.log| + 1 && u.log[|t.log|] == Freed(id)))
    && Only(RunsFds(callbacks), t, u)
  }

  lemma VisitLeft(t: State, u: State, v: State, walking: nat, id: nat, callbacks: Runs, left: Runs)
    requires id in t.nodes && VisitOk(t, u, walking + 1, id, callbacks, left)
    requires Later(u, walking, v) && (v.log == u.log || v.log == u.log + [Freed(id)]) && v.fds == u.fds
             && Only({}, u, v)
    ensures LeftOk(t, v, walking, id, callbacks, left)
  {
    LaterFreely(t, walking + 1, walking, u);
    LaterTrans(t, walking, u, v);
    OnlyTrans(RunsFds(callbacks), {}, RunsFds(callbacks), t, u, v);
  }

  lemma TurnOkLeft(s: State, t: State, u: State, walking: nat, id: nat)
    requires Later(s, walking, t) && GoesOn(t.log, u.log)
    requires Due(t.nodes, id) ==> |t.log| < |u.log| && u.log[|t.log|] == Invoked(id)
    requires !Due(t.nodes, id) ==> u.log == t.log || (|u.log| == |t.log| + 1 && u.log[|t.log|] == Freed(id))
    ensures TurnOk(DueSet(s.nodes), |s.log|, u.log, |t.log|, |u.log|, id)
  {
    if Due(s.nodes, id) && !Due(t.nodes, id) {
      var x :| |s.log| <= x < |t.log|
          && (t.log[x] == Invoked(id) || t.log[x] == Withdrawn(id) || t.log[x] == Deleted(id));
      assert u.log[x] == t.log[x];
    }
  }

  lemma WalkOneMore(s: State, t: State, u: State, walking: nat, callbacks: Runs, left: Runs, left': Runs,
                    turns: seq<nat>, k: nat)
    returns (turns': seq<nat>)
    requires k < |s.list| && WalkOk(s, t, walking, callbacks, left, turns, k)
             && LeftOk(t, u, walking, s.list[k], left, left')
    ensures WalkOk(s, u, walking, callbacks, left', turns', k + 1)
  {
    TurnOkLeft(s, t, u, walking, s.list[k]);
    turns' := ServedOneMore(DueSet(s.nodes), |s.log|, s.list, t.log, u.log, turns, k);
    OnlyTrans(RunsFds(callbacks), RunsFds(left), RunsFds(callbacks), s, t, u);
    LaterTrans(s, walking, t, u);
  }

  /** Whoever was due at the start of a walk, and whose descriptor no callback touches, is invoked in it. */
  lemma UntouchedInvoked(s: State, t: State, turns: seq<nat>, touched: set<int>, id: nat)
    requires ListOk(s.nodes, s.list) && FdsKept(s.fds, t.fds) && Only(touched, s, t)
    requires Served(DueSet(s.nodes), |s.log|, s.list, t.log, turns, |s.list|)
    requires Due(s.nodes, id) && id in s.fds && s.fds[id] !in touched
    ensures InvokedSince(t.log, |s.log|, id)
  {
    assert Listed(s.list, id);
    ServedInvoked(DueSet(s.nodes), |s.log|, s.list, t.log, turns, id);
  }

  lemma EndsWithWithout(list0: seq<nat>, k: nat, list: seq<nat>, j: nat, list': seq<nat>)
    requires k < |list0| && EndsWith(list0, k, list) && IsWithout(list, j, list') && j == |list| - |list0| + k
    ensures EndsWith(list0, k + 1, list')
  {
    forall i: nat | k < i < |list0|
      ensures SamePlace(list0, list', i)
    {
      assert SamePlace(list0, list, i) && StillAt(list, j, list', |list'| - |list0| + i);
    }
  }

  /** Where the walk is */
  lemma WalkAt(nodes: map<nat, Node>, list: seq<nat>, list0: seq<nat>, k: nat)
    requires ListOk(nodes, list) && k < |list0| && EndsWith(list0, k, list)
    ensures var i := |list| - |list0| + k; 0 <= i < |list| && list0[k] == list[i] && list0[k] in nodes
    ensures forall i :: 0 <= i < |list| && list[i] == list0[k] ==>
            i == |list| - |list0| + k && After(list, i) == After(list0, k)
  {
    assert SamePlace(list0, list, k);
    var i := |list| - |list0| + k;
    assert There(nodes, list, i);
    forall j | 0 <= j < |list| && list[j] == list0[k]
      ensures j == i
    {
      assert (j < i ==> Differ(list, j, i)) && (i < j ==> Differ(list, i, j));
    }
    assert k + 1 < |list0| ==> SamePlace(list0, list, k + 1);
  }

  /** Nothing is logged, or that somebody who was due is so no longer. */
  ghost predicate Withdraws(s: State, t: State) {
    t.log == s.log || exists id :: Due(s.nodes, id) && !Due(t.nodes, id) && t.log == s.log + [Withdrawn(id)]
  }

  /** Afterwards the descriptor has exactly the handler asked for, or none; one registered again keeps its pending
      conditions, and handlers of other descriptors stay. */
  lemma SetMeans(s: State, fd: int, read: bool, write: bool, walking: nat, t: State)
    requires ListOk(s.nodes, s.list) && OneEach(s.nodes) && SetDone(s, fd, read, write, walking, t)
    ensures !read && !write ==> forall id :: !Live(t.nodes, id, fd)
    ensures read || write ==>
              exists id :: Live(t.nodes, id, fd) && t.nodes[id].read == read && t.nodes[id].write == write
    ensures read || write ==> forall id :: Live(s.nodes, id, fd) ==>
              id in t.nodes && t.nodes[id] == s.nodes[id].(read := read, write := write)
    ensures forall id :: id in s.nodes && s.nodes[id].fd != fd ==> id in t.nodes && t.nodes[id] == s.nodes[id]
    ensures read || write ==> Withdraws(s, t)
  {
    if id :| Live(s.nodes, id, fd) {
      OnlyLive(s.nodes, fd, id);
      if read || write { assert Live(t.nodes, id, fd); }
    } else if read || write {
      var id :| id !in s.nodes && t == Inserted(s, id, Node(fd, read, write, NO_CONDS, false));
      assert Live(t.nodes, id, fd);
    }
  }

  class AioContext {
    var list: seq<nat>
    var nodes: map<nat, Node>
    var walking: nat
    var unused: nat
    ghost var freed: set<nat>
    ghost var gone: set<nat>
    ghost var fds: map<nat, int>
    ghost var log: seq<Event>

    ghost predicate Valid()
      reads this
    {
      StateOk(Now(), gone, unused)
    }

    ghost function Now(): State
      reads this
    {
      State(list, nodes, freed, fds, log)
    }

    constructor ()
      ensures Valid() && walking == 0 && nodes == map[]
    {
      list, nodes, walking, unused := [], map[], 0, 0;
      freed, gone, fds, log := {}, {}, map[], [];
    }

    /** find_aio_handler */
    method Find(fd: int) returns (found: Option<nat>)
      requires Valid()
      ensures found.Some? ==> found.value in nodes && nodes[found.value].fd == fd && !nodes[found.value].deleted
      ensures found.None? ==> forall id :: id in nodes && nodes[id].fd == fd ==> nodes[id].deleted
    {
      for i := 0 to |list|
        invariant forall j {:trigger Other(nodes, list, j, fd)} | 0 <= j < i :: Other(nodes, list, j, fd)
      {
        assert There(nodes, list, i);
        if nodes[list[i]].fd == fd && !nodes[list[i]].deleted {
          return Some(list[i]);
        }
        assert Other(nodes, list, i, fd);
      }
      found := None;
      forall id | id in nodes && nodes[id].fd == fd
        ensures nodes[id].deleted
      {
        assert Listed(list, id);
        var j :| 0 <= j < |list| && list[j] == id;
        assert Other(nodes, list, j, fd);
      }
    }

    /** One handler changes. */
    method Change(id: nat, n: Node, ghost events: seq<Event>)
      requires Valid() && id in nodes && n.fd == nodes[id].fd && EventsOk(nodes, id, n, events)
      modifies this`nodes, this`gone, this`log
      ensures Valid() && nodes == old(nodes)[id := n] && log == old(log) + events && Later(old(Now()), walking, Now())
      ensures Only({n.fd}, old(Now()), Now())
      ensures SameHandler(old(nodes[id]), n) && (events == [] || events == [Invoked(id)]) ==>
              Only({}, old(Now()), Now())
    {
      ghost var s := Now();
      ChangeLater(s, walking, id, n, events);
      ChangeOnly(s, id, n, events);
      gone := ChangeOk(s, gone, unused, id, n, events);
      nodes, log := nodes[id := n], log + events;
      assert Now() == Changed(s, id, n, events);
    }

    /** QLIST_REMOVE and g_free */
    method Remove(id: nat) returns (ghost k: nat)
      requires Valid() && walking == 0 && id in nodes
      modifies this`list, this`nodes, this`freed, this`gone, this`log
      ensures Valid() && Later(old(Now()), 0, Now()) && nodes == old(nodes) - {id} && freed == old(freed) + {id}
      ensures IsWithout(old(list), k, list) && old(list)[k] == id && log == old(log) + Leaving(old(nodes), id)
              && fds == old(fds)
      ensures Only({old(nodes[id].fd)}, old(Now()), Now())
    {
      assert Listed(list, id);
      var i: nat :| i < |list| && list[i] == id;
      k := i;
      ghost var s := Now();
      var list' := Without(list, i);
      WithoutIs(list, i);
      RemoveOk(s, gone, unused, k, list');
      LeaveLater(s, id, list');
      freed, gone, log := freed + {id}, gone + {id}, log + Leaving(nodes, id);
      list, nodes := list', nodes - {id};
      assert Now() == Removed(s, id, list);
    }

    /** aio_set_fd_handler: while a walk is under way, a handler is only marked as deleted. */
    method SetHandler(fd: int, read: bool, write: bool)
      requires Valid()
      modifies this
      ensures Valid() && walking == old(walking) && Later(old(Now()), walking, Now())
      ensures SetDone(old(Now()), fd, read, write, walking, Now()) && Only({fd}, old(Now()), Now())
    {
      ghost var s, id := Now(), unused;
      var found := Find(fd);
      if !read && !write {
        if found.Some? {
          Unregister(found.value);
        }
      } else if found.None? {
        Insert(Node(fd, read, write, NO_CONDS, false));
        SetNew(s, fd, read, write, walking, Now(), id);
      } else {
        Reset(found.value, nodes[found.value].(read := read, write := write));
      }
      if found.Some? { SetLive(s, fd, read, write, walking, Now(), found.value); }
    }

    /** A handler changes; if it was due and is so no longer, this withdraws it. */
    method Reset(id: nat, n: Node)
      requires Valid() && id in nodes && n.fd == nodes[id].fd && n.deleted == nodes[id].deleted
      modifies this`nodes, this`gone, this`log
      ensures Valid() && Later(old(Now()), walking, Now()) && Now() == Anew(old(Now()), id, n)
      ensures Only({n.fd}, old(Now()), Now())
    {
      Change(id, n, if Due(nodes, id) && !Due(nodes[id := n], id) then [Withdrawn(id)] else []);
    }

    /** The handler is deleted: only marked, or for real. */
    method Unregister(id: nat)
      requires Valid() && id in nodes && !nodes[id].deleted
      modifies this`list, this`nodes, this`freed, this`gone, this`log
      ensures Valid() && Later(old(Now()), walking, Now()) && Unregistered(old(Now()), id, walking, Now())
      ensures Only({old(nodes[id].fd)}, old(Now()), Now())
    {
      if walking > 0 {
        Change(id, nodes[id].(deleted := true, revents := NO_CONDS), [Deleted(id)]);
      } else {
        ghost var _ := Remove(id);
      }
    }

    /** A new handler, at the head of the list */
    method Insert(n: Node)
      requires Valid() && !n.deleted && n.revents == NO_CONDS
               && forall a :: a in nodes && nodes[a].fd == n.fd ==> nodes[a].deleted
      modifies this`list, this`nodes, this`unused, this`fds
      ensures Valid() && Later(old(Now()), walking, Now())
      ensures old(unused) !in old(nodes) && Now() == Inserted(old(Now()), old(unused), n)
    {
      var id := unused;
      InsertListOk(nodes, list, id, n);
      list, nodes, unused, fds := [id] + list, nodes[id := n], unused + 1, fds[id := n.fd];
    }

    /** The result of a poll for a descriptor */
    method Polled(fd: int, conds: Conds)
      requires Valid()
      modifies this`nodes, this`gone, this`log
      ensures Valid() && Later(old(Now()), walking, Now())
      ensures PolledDone(old(Now()), fd, conds, Now()) && Only({fd}, old(Now()), Now())
    {
      ghost var s := Now();
      var found := Find(fd);
      if found.Some? {
        Reset(found.value, nodes[found.value].(revents := conds));
        PolledLive(s, fd, conds, Now(), found.value);
      } else {
        assert forall id :: !Live(nodes, id, fd);
      }
    }

    /** QLIST_NEXT */
    method NextOf(id: nat) returns (next: Option<nat>)
      requires Valid() && id in nodes
      ensures exists i :: 0 <= i < |list| && list[i] == id && next == After(list, i)
    {
      assert Listed(list, id);
      var i :| 0 <= i < |list| && list[i] == id;
      next := After(list, i);
    }

    /** A handler's conditions are taken, and its first callback is called if it is due. */
    method Take(id: nat) returns (revents: Conds, first: bool)
      requires Valid() && walking > 0 && id in nodes
      modifies this`nodes, this`gone, this`log
      ensures Valid() && Later(old(Now()), walking, Now()) && Now() == Taken(old(Now()), id)
      ensures revents == old(nodes[id].Ready()) && first == old(Due(nodes, id)) && Only({}, old(Now()), Now())
    {
      revents := nodes[id].Ready();
      first := !nodes[id].deleted && ((revents.Reads() && nodes[id].read) || (revents.Writes() && nodes[id].write));
      Change(id, nodes[id].(revents := NO_CONDS), if first then [Invoked(id)] else []);
    }

    /** The body of aio_dispatch's loop, between taking and dropping the lock: the conditions are taken, and if the
        handler is due its callbacks are called, of which the first returns in state mid. */
    method Visit(id: nat, callbacks: Runs) returns (left: Runs, ghost mid: State)
      requires Valid() && walking > 0 && id in nodes
      modifies this
      ensures Valid() && walking == old(walking) && VisitOk(old(Now()), Now(), walking, id, callbacks, left)
      ensures if old(Due(nodes, id)) then Called(old(Now()), mid, Now(), walking, id, callbacks)
              else Now() == Taken(old(Now()), id)
      decreases callbacks, 3
    {
      left := callbacks;
      ghost var s := Now();
      mid := s;
      var readable := nodes[id].read;
      var revents, first := Take(id);
      if first {
        left, mid := Callbacks(id, callbacks, readable && revents.Reads(), revents);
        VisitDone(s, mid, Now(), walking, id, callbacks, left);
      } else {
        VisitNone(s, walking, id, callbacks);
      }
    }

    /** The first callback runs, and then, if the first was for reading and the handler is still there, the second. */
    method Callbacks(id: nat, callbacks: Runs, byRead: bool, revents: Conds) returns (left: Runs, ghost mid: State)
      requires Valid() && walking > 0 && id in nodes
      modifies this
      ensures Valid() && walking == old(walking) && Later(old(Now()), walking, Now())
              && Only(RunsFds(callbacks), old(Now()), Now())
      ensures (left == callbacks || left < callbacks) && RunsFds(left) <= RunsFds(callbacks)
              && (callbacks.Next? ==> left < callbacks)
      ensures callbacks == NoMore ==>
                |log| == |old(log)| + if byRead && !old(nodes[id].deleted) && revents.Writes() && old(nodes[id].write)
                  then 1 else 0
      ensures Later(old(Now()), walking, mid) && Only(RunsFds(callbacks), old(Now()), mid) && Later(mid, walking, Now())
      ensures CallbackRan(callbacks, old(Now()), walking, mid)
      ensures SecondOk(mid, Now(), walking, id, byRead, revents.Writes(), OneLess(callbacks))
      decreases callbacks, 2
    {
      ghost var t := Now();
      left := Callback(callbacks);
      mid := Now();
      if byRead {
        StillThere(t, id);
        if !nodes[id].deleted && revents.Writes() && nodes[id].write {
          ghost var u := Now();
          left := Invoke(id, left);
          LaterTrans(t, walking, u, Now());
          OnlyTrans(RunsFds(callbacks), RunsFds(callbacks), RunsFds(callbacks), t, u, Now());
        }
      }
    }

    /** While a walk is under way, a handler stays. */
    lemma StillThere(t: State, id: nat)
      requires Valid() && walking > 0 && id in t.nodes && ListOk(t.nodes, t.list) && Later(t, walking, Now())
      ensures id in nodes
    {
      assert Listed(t.list, id);
      var i :| 0 <= i < |t.list| && t.list[i] == id;
      assert SamePlace(t.list, list, i);
      assert There(nodes, list, |list| - |t.list| + i);
    }

    /** A callback runs. */
    method Callback(callbacks: Runs) returns (left: Runs)
      requires Valid() && walking > 0
      modifies this
      ensures Valid() && walking == old(walking) && Later(old(Now()), walking, Now())
              && Only(RunsFds(callbacks), old(Now()), Now())
      ensures left == OneLess(callbacks) && CallbackRan(callbacks, old(Now()), walking, Now())
      decreases callbacks, 0
    {
      left := callbacks;
      if left.Next? {
        RunOps(left.run);
        left := left.rest;
      }
    }

    /** A second callback of the same handler runs. */
    method Invoke(id: nat, callbacks: Runs) returns (left: Runs)
      requires Valid() && walking > 0 && id in nodes && !nodes[id].deleted
      modifies this
      ensures Valid() && walking == old(walking) && Later(old(Now()), walking, Now())
              && Only(RunsFds(callbacks), old(Now()), Now())
      ensures left == OneLess(callbacks) && |old(log)| < |log| && log[|old(log)|] == Invoked(id)
      ensures CallbackRan(callbacks, old(Now()).(log := old(log) + [Invoked(id)]), walking, Now())
      decreases callbacks, 1
    {
      ghost var s := Now();
      Change(id, nodes[id], [Invoked(id)]);
      ghost var t := Now();
      assert t == s.(log := s.log + [Invoked(id)]) by { assert s.nodes[id := s.nodes[id]] == s.nodes; }
      assert t.log[|s.log|] == Invoked(id);
      left := Callback(callbacks);
      LaterTrans(s, walking, t, Now());
      OnlyTrans({}, RunsFds(callbacks), RunsFds(callbacks), s, t, Now());
    }

    /** One operation */
    method RunOp(op: Op)
      requires Valid()
      modifies this
      ensures Valid() && walking == old(walking) && Later(old(Now()), walking, Now())
      ensures OpDone(op, old(Now()), walking, Now()) && Only(OpFds(op), old(Now()), Now())
      decreases op, 1
    {
      match op {
        case SetHandler(fd, read, write) => SetHandler(fd, read, write);
        case Polled(fd, conds) => Polled(fd, conds);
        case Dispatch(callbacks, timers) =>
          ghost var turns := Dispatch(callbacks, timers);
          assert DispatchOk(old(Now()), Now(), callbacks, timers, turns);
      }
    }

    /** Any run of operations: each is done, and whatever callbacks do, the walks that are under way find every handler
        that they get to, and nobody is withdrawn or deleted unless the run names its descriptor at some depth. */
    method RunOps(run: Run)
      requires Valid()
      modifies this
      ensures Valid() && walking == old(walking) && Later(old(Now()), walking, Now())
      ensures Ran(run, old(Now()), walking, Now()) && Only(RunFds(run), old(Now()), Now())
      decreases run
    {
      if run.Then? {
        ghost var s := Now();
        RunOp(run.op);
        ghost var t := Now();
        RunOps(run.rest);
        LaterTrans(s, walking, t, Now());
        OnlyTrans(OpFds(run.op), RunFds(run.rest), RunFds(run), s, t, Now());
      }
    }

    /** A walk leaves a handler behind, and frees it if it is deleted and this is the outermost walk. */
    method LeaveBehind(id: nat, ghost list0: seq<nat>, ghost k: nat)
      requires Valid() && k < |list0| && EndsWith(list0, k, list) && id == list0[k]
      modifies this`list, this`nodes, this`freed, this`gone, this`log
      ensures Valid() && Later(old(Now()), walking, Now()) && EndsWith(list0, k + 1, list)
      ensures log == old(log) || log == old(log) + [Freed(id)]
      ensures id in old(nodes)
              && nodes == if walking == 0 && old(nodes)[id].deleted then old(nodes) - {id} else old(nodes)
      ensures Only({}, old(Now()), Now())
    {
      WalkAt(nodes, list, list0, k);
      if walking == 0 && nodes[id].deleted {
        ghost var list1 := list;
        ghost var j := Remove(id);
        EndsWithWithout(list0, k, list1, j, list);
      }
    }

    /** What the walk needs to know of it */
    method VisitBriefly(id: nat, callbacks: Runs) returns (left: Runs)
      requires Valid() && walking > 0 && id in nodes
      modifies this
      ensures Valid() && walking == old(walking) && VisitOk(old(Now()), Now(), walking, id, callbacks, left)
      decreases callbacks, 4
    {
      ghost var mid;
      left, mid := Visit(id, callbacks);
    }

    /** Where the walk goes on to */
    method NextInWalk(id: nat, ghost list0: seq<nat>, ghost k: nat, ghost list1: seq<nat>) returns (next: Option<nat>)
      requires Valid() && k < |list0| && EndsWith(list0, k, list1) && EndsWith(list1, 0, list) && id == list0[k]
      ensures next == After(list0, k) && EndsWith(list0, k, list)
    {
      EndsWithTrans(list0, k, list1, list);
      WalkAt(nodes, list, list0, k);
      next := NextOf(id);
    }

    /** A handler is visited with the lock held; next is the one to go on to. */
    method VisitLocked(id: nat, callbacks: Runs, ghost list0: seq<nat>, ghost k: nat)
      returns (next: Option<nat>, left: Runs)
      requires Valid() && k < |list0| && EndsWith(list0, k, list) && id == list0[k] && id in nodes
      modifies this
      ensures Valid() && walking == old(walking) && VisitOk(old(Now()), Now(), walking + 1, id, callbacks, left)
      ensures next == After(list0, k) && EndsWith(list0, k, list)
      decreases callbacks, 5
    {
      ghost var list1 := list;
      walking := walking + 1;
      left := VisitBriefly(id, callbacks);
      next := NextInWalk(id, list0, k, list1);
      walking := walking - 1;
    }

    /** One handler's turn in aio_dispatch: visit it, go on to the next one, and leave it behind. */
    method Turn(id: nat, callbacks: Runs, ghost list0: seq<nat>, ghost k: nat) returns (next: Option<nat>, left: Runs)
      requires Valid() && k < |list0| && EndsWith(list0, k, list) && id == list0[k]
      modifies this
      ensures Valid() && walking == old(walking) && LeftOk(old(Now()), Now(), walking, id, callbacks, left)
      ensures next == After(list0, k) && EndsWith(list0, k + 1, list)
      ensures id in nodes ==> walking > 0 || !nodes[id].deleted
      decreases callbacks, 6
    {
      ghost var s := Now();
      WalkAt(nodes, list, list0, k);
      next, left := VisitLocked(id, callbacks, list0, k);
      ghost var t := Now();
      LeaveBehind(id, list0, k);
      VisitLeft(s, t, Now(), walking, id, callbacks, left);
    }

    /** The walk of aio_dispatch: everybody has a turn, in which whoever is due is invoked. */
    method Walk(callbacks: Runs) returns (ghost turns: seq<nat>)
      requires Valid()
      modifies this
      ensures Valid() && walking == old(walking) && Later(old(Now()), walking, Now())
      ensures Served(DueSet(old(nodes)), |old(log)|, old(list), log, turns, |old(list)|)
              && Only(RunsFds(callbacks), old(Now()), Now())
      decreases callbacks, 7
    {
      ghost var s := Now();
      var left := callbacks;
      var node := Head(list);
      ghost var k := 0;
      turns := [|log|];
      while node.Some?
        invariant Valid() && walking == old(walking) && WalkOk(s, Now(), walking, callbacks, left, turns, k)
        invariant node == (if k < |s.list| then Some(s.list[k]) else None) && EndsWith(s.list, k, list)
        decreases |s.list| - k
      {
        ghost var t := Now();
        ghost var left0 := left;
        node, left := Turn(node.value, left, s.list, k);
        turns := WalkOneMore(s, t, Now(), walking, callbacks, left0, left, turns, k);
        k := k + 1;
      }
    }

    /** aio_dispatch: whoever was due when it started is invoked when its turn comes, unless it has been invoked,
        deleted, or registered or polled anew so as not to be due, before; in any case if no callback touches its
        descriptor. */
    method Dispatch(callbacks: Runs, timers: Run) returns (ghost turns: seq<nat>)
      requires Valid()
      modifies this
      ensures Valid() && walking == old(walking) && Later(old(Now()), walking, Now())
      ensures DispatchOk(old(Now()), Now(), callbacks, timers, turns)
      decreases Op.Dispatch(callbacks, timers), 0
    {
      ghost var s := Now();
      turns := Walk(callbacks);
      ghost var t := Now();
      forall id | Due(s.nodes, id) && s.nodes[id].fd !in RunsFds(callbacks)
        ensures InvokedSince(t.log, |s.log|, id)
      {
        UntouchedInvoked(s, t, turns, RunsFds(callbacks), id);
      }
      RunOps(timers);
      LaterTrans(s, walking, t, Now());
      OnlyTrans(RunsFds(callbacks), RunFds(timers), RunsFds(callbacks) + RunFds(timers), s, t, Now());
      ServedLater(DueSet(s.nodes), |s.log|, s.list, t.log, log, turns, |s.list|);
      forall id | Due(s.nodes, id) && s.nodes[id].fd !in RunsFds(callbacks)
        ensures InvokedSince(log, |s.log|, id)
      {
        InvokedGrows(t.log, log, |s.log|, id);
      }
    }
  }
}
