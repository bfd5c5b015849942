/** What the bottom halves of async.c and the descriptor handlers of aio-posix.c have in common: a list that is walked
    while callbacks change it, and a log of what has happened to whom. */
module AioLog {
  import opened Options

  // ---- The log ------------------------------------------------------------------------------------------

  /** Withdrawn: what it was to be invoked for has been taken back. Only bottom halves are scheduled. */
  datatype Event =
    | Scheduled(id: nat, idle: bool)
    | Invoked(id: nat)
    | Withdrawn(id: nat)
    | Deleted(id: nat)
    | Freed(id: nat)

  /** From time `from` on and before time `to`, it has been invoked, withdrawn or deleted. */
  ghost predicate HandledIn(log: seq<Event>, from: nat, to: nat, id: nat)
    requires to <= |log|
  {
    exists t :: from <= t < to && (log[t] == Invoked(id) || log[t] == Withdrawn(id) || log[t] == Deleted(id))
  }

  ghost predicate Handled(log: seq<Event>, from: nat, id: nat) { HandledIn(log, from, |log|, id) }

  ghost predicate InvokedSince(log: seq<Event>, from: nat, id: nat) {
    exists t :: from <= t < |log| && log[t] == Invoked(id)
  }

  lemma HandledEarlier(log: seq<Event>, from: nat, from': nat, id: nat)
    requires Handled(log, from, id) && from' <= from
    ensures Handled(log, from', id)
  {
  }

  /** The log goes on from `log`. */
  ghost predicate GoesOn(log: seq<Event>, log': seq<Event>) {
    |log| <= |log'| && forall t {:trigger log[t]} {:trigger log'[t]} | 0 <= t < |log| :: log'[t] == log[t]
  }

  lemma HandledGrows(log: seq<Event>, log': seq<Event>, from: nat, id: nat)
    requires GoesOn(log, log') && Handled(log, from, id)
    ensures Handled(log', from, id)
  {
    var x :| from <= x < |log| && (log[x] == Invoked(id) || log[x] == Withdrawn(id) || log[x] == Deleted(id));
    assert log'[x] == log[x];
  }

  lemma InvokedGrows(log: seq<Event>, log': seq<Event>, from: nat, id: nat)
    requires GoesOn(log, log') && InvokedSince(log, from, id)
    ensures InvokedSince(log', from, id)
  {
    var x :| from <= x < |log| && log[x] == Invoked(id);
    assert log'[x] == log[x];
  }

  /** Takes back what somebody was due for */
  predicate TakesBack(e: Event) { e.Withdrawn? || e.Deleted? }

  /** Since time `from`, nobody has been withdrawn or deleted but for these causes. */
  ghost predicate Explained(causes: set<Event>, log: seq<Event>, from: nat) {
    forall t {:trigger log[t]} | from <= t < |log| && TakesBack(log[t]) :: log[t] in causes
  }

  lemma ExplainedTrans(causes: set<Event>, from: nat, log: seq<Event>, log': seq<Event>)
    requires from <= |log| && Explained(causes, log, from) && GoesOn(log, log') && Explained(causes, log', |log|)
    ensures Explained(causes, log', from)
  {
    forall t | from <= t < |log'| && TakesBack(log'[t])
      ensures log'[t] in causes
    {
      assert t < |log| ==> log'[t] == log[t];
    }
  }

  lemma ExplainedOne(causes: set<Event>, log: seq<Event>, e: Event)
    requires TakesBack(e) ==> e in causes
    ensures Explained(causes, log + [e], |log|)
  {
  }

  lemma ExplainedMore(causes: set<Event>, causes': set<Event>, log: seq<Event>, from: nat)
    requires Explained(causes, log, from) && causes <= causes'
    ensures Explained(causes', log, from)
  {
  }

  // ---- The turns of a walk ------------------------------------------------------------------------------

  /** Somebody's turn in a walk that started at time `from` lasts from time a to time b: it begins with the
      invocation, or nothing happens in it but that it is freed; and whoever was due at the start is invoked in its
      turn, unless invoked, withdrawn or deleted before. */
  ghost predicate TurnOk(due: set<nat>, from: nat, log: seq<Event>, a: nat, b: nat, id: nat) {
    && from <= a <= b <= |log| && (a < b ==> log[a] == Invoked(id) || (log[a] == Freed(id) && b == a + 1))
    && (id in due ==> (a < b && log[a] == Invoked(id)) || HandledIn(log, from, a, id))
  }

  /** The first k of the list have had their turns; turns[i] is when that of the i-th began. */
  ghost predicate Served(due: set<nat>, from: nat, list: seq<nat>, log: seq<Event>, turns: seq<nat>, k: nat) {
    && k <= |list| && |turns| == k + 1 && turns[0] == from && turns[k] <= |log|
    && forall i {:trigger list[i]} | 0 <= i < k :: TurnOk(due, from, log, turns[i], turns[i + 1], list[i])
  }

  lemma TurnOkLater(due: set<nat>, from: nat, log: seq<Event>, log': seq<Event>, a: nat, b: nat, id: nat)
    requires TurnOk(due, from, log, a, b, id) && GoesOn(log, log')
    ensures TurnOk(due, from, log', a, b, id)
  {
    if HandledIn(log, from, a, id) {
      var t :| from <= t < a && (log[t] == Invoked(id) || log[t] == Withdrawn(id) || log[t] == Deleted(id));
      assert log'[t] == log[t];
    }
  }

  lemma ServedLater(due: set<nat>, from: nat, list: seq<nat>, log: seq<Event>, log': seq<Event>, turns: seq<nat>,
                    k: nat)
    requires Served(due, from, list, log, turns, k) && GoesOn(log, log')
    ensures Served(due, from, list, log', turns, k)
  {
    forall i | 0 <= i < k
      ensures TurnOk(due, from, log', turns[i], turns[i + 1], list[i])
    {
      TurnOkLater(due, from, log, log', turns[i], turns[i + 1], list[i]);
    }
  }

  lemma ServedOneMore(due: set<nat>, from: nat, list: seq<nat>, log: seq<Event>, log': seq<Event>, turns: seq<nat>,
                      k: nat)
    returns (turns': seq<nat>)
    requires k < |list| && from <= |log| && GoesOn(log, log') && Served(due, from, list, log, turns, k)
             && turns[k] == |log|
    requires TurnOk(due, from, log', |log|, |log'|, list[k])
    ensures Served(due, from, list, log', turns', k + 1) && turns' == turns + [|log'|]
  {
    ServedLater(due, from, list, log, log', turns, k);
    turns' := turns + [|log'|];
  }

  /** Whoever was due at the start of a walk, and has not been withdrawn or deleted in it, has been invoked in it. */
  lemma ServedInvoked(due: set<nat>, from: nat, list: seq<nat>, log: seq<Event>, turns: seq<nat>, id: nat)
    requires Served(due, from, list, log, turns, |list|) && id in due && id in list
    requires forall t {:trigger log[t]} | from <= t < |log| :: log[t] != Withdrawn(id) && log[t] != Deleted(id)
    ensures InvokedSince(log, from, id)
  {
    var i :| 0 <= i < |list| && list[i] == id;
    assert TurnOk(due, from, log, turns[i], turns[i + 1], id);
  }

  /** Who has been deleted, or freed */
  ghost function Gone(log: seq<Event>): set<nat> {
    if log == [] then {}
    else
      var gone, e := Gone(log[..|log| - 1]), log[|log| - 1];
      if e.Deleted? then gone + {e.id} else gone
  }

  ghost function FreedIn(log: seq<Event>): set<nat> {
    if log == [] then {}
    else
      var freed, e := FreedIn(log[..|log| - 1]), log[|log| - 1];
      if e.Freed? then freed + {e.id} else freed
  }

  /** Nobody is invoked after it has been deleted, and nobody is freed twice, or without having been deleted. */
  ghost predicate LogOk(log: seq<Event>) {
    log == []
    || (var before, e := log[..|log| - 1], log[|log| - 1];
        LogOk(before) && EventOk(Gone(before), FreedIn(before), e))
  }

  ghost predicate EventOk(gone: set<nat>, freed: set<nat>, e: Event) {
    && (e.Invoked? ==> e.id !in gone)
    && (e.Freed? ==> e.id in gone && e.id !in freed)
  }

  /** One more event */
  lemma LogGrows(freed: set<nat>, gone: set<nat>, log: seq<Event>, e: Event)
    requires LogOk(log) && freed == FreedIn(log) && gone == Gone(log) && EventOk(gone, freed, e)
    ensures LogOk(log + [e])
    ensures FreedIn(log + [e]) == (if e.Freed? then freed + {e.id} else freed)
            && Gone(log + [e]) == (if e.Deleted? then gone + {e.id} else gone)
  {
    assert (log + [e])[..|log|] == log;
  }

  /** What LogOk means for two events of a run. */
  lemma {:induction false} NeverAgain(log: seq<Event>, t: nat, u: nat)
    requires LogOk(log) && t < u < |log|
    ensures log[t].Deleted? ==> log[u] != Invoked(log[t].id)
    ensures log[t].Freed? ==> log[u] != log[t]
    ensures log[t].Deleted? ==> log[t].id in Gone(log[..u])
    ensures log[t].Freed? ==> log[t].id in FreedIn(log[..u])
  {
    var n := |log| - 1;
    if u < n {
      NeverAgain(log[..n], t, u);
      assert log[..n][..u] == log[..u];
    } else {
      EventRemembered(log[..n], t);
      assert log[..u] == log[..n];
    }
  }

  lemma {:induction false} EventRemembered(log: seq<Event>, t: nat)
    requires t < |log|
    ensures log[t].Deleted? ==> log[t].id in Gone(log)
    ensures log[t].Freed? ==> log[t].id in FreedIn(log)
  {
    var n := |log| - 1;
    if t < n { EventRemembered(log[..n], t); }
  }

  // ---- The list -----------------------------------------------------------------------------------------

  function Head(list: seq<nat>): Option<nat> { if list == [] then None else Some(list[0]) }

  function After(list: seq<nat>, i: nat): Option<nat> { if i + 1 < |list| then Some(list[i + 1]) else None }

  predicate Differ(list: seq<nat>, i: nat, j: nat)
    requires i < |list| && j < |list|
  {
    list[i] != list[j]
  }

  predicate Listed(list: seq<nat>, id: nat) { id in list }

  /** Counted from the end, the lists agree on place i of the first one. */
  ghost predicate SamePlace(tail: seq<nat>, list: seq<nat>, i: nat)
    requires i < |tail|
  {
    0 <= |list| - |tail| + i && tail[i] == list[|list| - |tail| + i]
  }

  /** The list ends with `tail` from place k on. */
  ghost predicate EndsWith(tail: seq<nat>, k: nat, list: seq<nat>) {
    |tail| <= |list| + k && forall i: nat {:trigger SamePlace(tail, list, i)} | k <= i < |tail| ::
      SamePlace(tail, list, i)
  }

  lemma EndsWithTrans(tail: seq<nat>, k: nat, list: seq<nat>, list': seq<nat>)
    requires EndsWith(tail, k, list) && EndsWith(list, 0, list')
    ensures EndsWith(tail, k, list')
  {
    forall i: nat | k <= i < |tail|
      ensures SamePlace(tail, list', i)
    {
      assert SamePlace(tail, list, i) && SamePlace(list, list', |list| - |tail| + i);
    }
  }

  function Without(list: seq<nat>, k: nat): seq<nat>
    requires k < |list|
  {
    list[..k] + list[k + 1..]
  }

  /** list' is the list without the element at place k. */
  ghost predicate IsWithout(list: seq<nat>, k: nat, list': seq<nat>) {
    && k < |list| == |list'| + 1
    && forall i: nat {:trigger StillAt(list, k, list', i)} | i < |list'| :: StillAt(list, k, list', i)
  }

  ghost predicate StillAt(list: seq<nat>, k: nat, list': seq<nat>, i: nat)
    requires i < |list'| < |list|
  {
    list'[i] == list[if i < k then i else i + 1]
  }

  lemma WithoutIs(list: seq<nat>, k: nat)
    requires k < |list|
    ensures IsWithout(list, k, Without(list, k))
  {
  }
}
