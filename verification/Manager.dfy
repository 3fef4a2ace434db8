/**
  The Manager of internal/concurrency/manager.go as an object with one method for each of
  its critical sections. Every method takes exactly one step of the state machine of module
  Groups in its own group and leaves every other group alone.
 */
module ConcurrencyManager {
  import opened Basics
  import opened Groups
  import opened GroupSafety
  import opened GroupTheorems

  class Manager {
    /** By group name: the semaphore, override and advisory lists the source keeps in three maps. */
    var groups: map<string, Group>

    function Of(name: string): Group
      reads this
    {
      GetOr(groups, name, INITIAL)
    }

    /** The channel a swap would close is still open, in every group. */
    ghost predicate Valid()
      reads this
    {
      forall name :: name in groups ==> CurrentOpen(groups[name])
    }

    constructor ()
      ensures Valid() && forall name :: Of(name) == INITIAL
    {
      groups := map[];
    }

    // ------------------------------------------------------------ limits

    /** Reconfigures every group: undeclared ones lose their semaphore, changed ones swap it. */
    method Update(cfg: map<string, int>)
      requires Valid()
      modifies this
      ensures Valid()
      ensures forall name :: Of(name) == Configured(old(Of(name)), Lookup(cfg, name))
    {
      ghost var was := groups;
      var todo := cfg.Keys + groups.Keys;
      NothingSettled(was, cfg);
      while todo != {}
        invariant todo <= cfg.Keys + was.Keys && Valid() && groups == Halfway(was, cfg, todo)
        decreases todo
      {
        var name :| name in todo;
        SettleNext(was, cfg, todo, name);
        Settle(name, cfg);
        todo := todo - {name};
      }
    }

    /** One round of Update for one name. */
    method Settle(name: string, cfg: map<string, int>)
      requires Valid()
      modifies this
      ensures Valid()
      ensures groups == old(groups)[name := Configured(old(Of(name)), Lookup(cfg, name))]
    {
      if name in cfg {
        Declare(name, cfg[name]);
      } else {
        Undeclare(name);
      }
    }

    /** A declared name: keep the semaphore if the effective limit is unchanged. */
    method Declare(name: string, limit: int)
      requires Valid()
      modifies this
      ensures Valid()
      ensures groups == old(groups)[name := Configured(old(Of(name)), Some(limit))]
    {
      var g := Of(name);
      var declared := if limit < 1 then DEFAULT_LIMIT else limit;
      var effective, overridden := declared, false;
      if g.override.Some? {
        effective, overridden := g.override.value, true;
      }
      if g.current.Some? && g.sems[g.current.value].limit == effective {
        var i := g.current.value;
        g := g.(sems := g.sems[i := g.sems[i].(declared := declared, overridden := overridden)]);
      } else {
        g := Replace(g, NewSem(declared, effective, overridden));
      }
      groups := groups[name := g];
    }

    method Undeclare(name: string)
      requires Valid()
      modifies this
      ensures Valid()
      ensures groups == old(groups)[name := Configured(old(Of(name)), None)]
    {
      var g := Of(name);
      if g.current.Some? {
        g := CloseRetired(g, g.current.value);
      }
      groups := groups[name := g.(current := None)];
    }

    method SetLimitOverride(name: string, limit: int) returns (ok: bool)
      requires Valid()
      modifies this
      ensures Valid()
      ensures ok == (limit >= 1)
      ensures groups == if ok then old(groups)[name := Overridden(old(Of(name)), limit)] else old(groups)
    {
      if limit < 1 {
        return false;
      }
      var g := Of(name);
      g := g.(override := Some(limit));
      if g.current.Some? {
        var i := g.current.value;
        if g.sems[i].limit == limit {
          g := g.(sems := g.sems[i := g.sems[i].(overridden := true)]);
        } else {
          g := Replace(g, NewSem(g.sems[i].declared, limit, true));
        }
      }
      groups := groups[name := g];
      return true;
    }

    method ClearLimitOverride(name: string)
      requires Valid()
      modifies this
      ensures Valid()
      ensures groups == old(groups)[name := Cleared(old(Of(name)))]
    {
      var g := Of(name);
      g := g.(override := None);
      if g.current.Some? {
        var i := g.current.value;
        if g.sems[i].limit == g.sems[i].declared {
          g := g.(sems := g.sems[i := g.sems[i].(overridden := false)]);
        } else {
          g := Replace(g, NewSem(g.sems[i].declared, g.sems[i].declared, false));
        }
      }
      groups := groups[name := g];
    }

    // ------------------------------------------------------------ acquire and release

    /**
      The start of Acquire: no group gates nothing; otherwise fail, take a free slot at once, or
      join the line, in one critical section.
     */
    method BeginAcquire(name: string, c: CallId, run: string, watches: bool)
      returns (gated: bool, queued: Option<QueueState>)
      requires Valid() && c !in Of(name).calls
      modifies this
      ensures Valid()
      ensures gated <==> name != ""
      ensures groups == if gated then old(groups)[name := Acquired(old(Of(name)), c, run, watches)] else old(groups)
      ensures queued.Some? <==> gated && watches && Of(name).calls[c].pc.Queued?
      ensures queued.Some? ==> Lookup(Of(name).views, c) == queued
    {
      if name == "" {
        return false, None;
      }
      var g := Of(name);
      gated, queued := true, None;
      if g.current.None? {
        g := g.(calls := g.calls[c := Call(run, watches, false, 0, Finished(UnknownGroup))]);
      } else if g.sems[g.current.value].tokens < g.sems[g.current.value].limit {
        var i := g.current.value;
        g := g.(sems := g.sems[i := g.sems[i].(tokens := g.sems[i].tokens + 1)],
                calls := g.calls[c := Call(run, watches, false, 0, Holding(i))]);
        if run != "" {
          g := g.(queue := g.queue.(holders := g.queue.holders + [run]));
        }
      } else {
        if run != "" {
          g := g.(queue := g.queue.(waiting := g.queue.waiting + [c]));
        }
        g := g.(calls := g.calls[c := Call(run, watches, false, g.tickets, Queued(g.current.value))],
                tickets := g.tickets + 1);
        if watches {
          var state := QueueStateOf(g.queue, c);
          g := g.(views := g.views[c := state]);
          queued := Some(state);
        }
      }
      groups := groups[name := g];
    }

    /** After the blocking send won: leave the line and join the holders. */
    method RegisterTaken(name: string, c: CallId)
      requires Valid() && Enabled(Of(name), Register(c))
      modifies this
      ensures Valid()
      ensures groups == old(groups)[name := Admitted(old(Of(name)), c, old(Of(name)).calls[c].pc.sem)]
    {
      var g := Of(name);
      g := Admit(g, c, g.calls[c].pc.sem);
      groups := groups[name := g];
    }

    method FinishCancelled(name: string, c: CallId)
      requires Valid() && Enabled(Of(name), FinishCancel(c))
      modifies this
      ensures Valid()
      ensures groups == old(groups)[name := LeftLine(old(Of(name)), c, Cancelled)]
    {
      var g := LeaveLine(Of(name), c, Cancelled);
      groups := groups[name := g];
    }

    /** After retired closed: bind to the group's current semaphore, or fail if there is none. */
    method RebindWaiter(name: string, c: CallId)
      requires Valid() && Enabled(Of(name), Rebind(c))
      modifies this
      ensures Valid()
      ensures groups == old(groups)[name := Rebound(old(Of(name)), c)]
    {
      var g := Of(name);
      if g.current.None? {
        g := LeaveLine(g, c, RemovedWhileQueued);
      } else {
        var i := g.current.value;
        if g.sems[i].tokens < g.sems[i].limit {
          g := g.(sems := g.sems[i := g.sems[i].(tokens := g.sems[i].tokens + 1)]);
          g := Admit(g, c, i);
        } else {
          g := g.(calls := g.calls[c := g.calls[c].(pc := Queued(i))]);
        }
      }
      groups := groups[name := g];
    }

    /** The second half of a release, after the token went back. */
    method DropReturned(name: string, c: CallId)
      requires Valid() && Enabled(Of(name), DropHolder(c))
      modifies this
      ensures Valid()
      ensures groups == old(groups)[name := Dropped(old(Of(name)), c)]
    {
      var g := Of(name);
      var queue := DropHolderFrom(g.queue, g.calls[c].run);
      g := g.(queue := queue, calls := g.calls[c := g.calls[c].(pc := Finished(Released))]);
      g := NotifyWaiters(g);
      groups := groups[name := g];
    }
  }

  /** Update's progress: the names in `todo` are as they were, the others as configured. */
  ghost function Halfway(was: map<string, Group>, cfg: map<string, int>, todo: set<string>): map<string, Group> {
    map name | name in cfg.Keys + was.Keys && (name in todo ==> name in was) ::
      if name in todo then was[name] else Configured(GetOr(was, name, INITIAL), Lookup(cfg, name))
  }

  lemma NothingSettled(was: map<string, Group>, cfg: map<string, int>)
    ensures Halfway(was, cfg, cfg.Keys + was.Keys) == was
  {
  }

  lemma SettleNext(was: map<string, Group>, cfg: map<string, int>, todo: set<string>, name: string)
    requires name in todo && todo <= cfg.Keys + was.Keys
    ensures GetOr(Halfway(was, cfg, todo), name, INITIAL) == GetOr(was, name, INITIAL)
    ensures Halfway(was, cfg, todo - {name}) ==
      Halfway(was, cfg, todo)[name := Configured(GetOr(was, name, INITIAL), Lookup(cfg, name))]
  {
  }

  // -------------------------------------------------------------- the advisory lists

  method DropHolderFrom(q: GroupQueue, id: string) returns (q': GroupQueue)
    ensures q' == WithoutHolder(q, id)
  {
    if id == "" {
      return q;
    }
    var i := 0;
    while i < |q.holders|
      invariant 0 <= i <= |q.holders| && id !in q.holders[..i]
    {
      if q.holders[i] == id {
        RemoveFirstAt(q.holders, id, i);
        return q.(holders := q.holders[..i] + q.holders[i + 1..]);
      }
      i := i + 1;
    }
    RemoveFirstAbsent(q.holders, id);
    return q;
  }

  method DropWaiterFrom(q: GroupQueue, c: CallId) returns (q': GroupQueue)
    ensures q' == WithoutWaiter(q, c)
  {
    var i := 0;
    while i < |q.waiting|
      invariant 0 <= i <= |q.waiting| && c !in q.waiting[..i]
    {
      if q.waiting[i] == c {
        RemoveFirstAt(q.waiting, c, i);
        return q.(waiting := q.waiting[..i] + q.waiting[i + 1..]);
      }
      i := i + 1;
    }
    RemoveFirstAbsent(q.waiting, c);
    return q;
  }

  /** The holders and the place of c in the line, as queueState scans for it. */
  method QueueStateOf(q: GroupQueue, c: CallId) returns (state: QueueState)
    ensures state == ViewOf(q, c)
  {
    var i := 0;
    while i < |q.waiting| && q.waiting[i] != c
      invariant 0 <= i <= |q.waiting|
      invariant Position(q.waiting, c)
             == if Position(q.waiting[i..], c) == 0 then 0 else i + Position(q.waiting[i..], c)
    {
      assert q.waiting[i..][1..] == q.waiting[i + 1..];
      i := i + 1;
    }
    state := QueueState(q.holders, if i < |q.waiting| then i + 1 else 0);
  }

  method NotifyWaiters(g: Group) returns (g': Group)
    ensures g' == Notified(g)
  {
    var views := g.views;
    var i := 0;
    AllNotified(g);
    while i < |g.queue.waiting|
      invariant 0 <= i <= |g.queue.waiting| && views == NotifiedUpTo(g, g.queue.waiting[..i])
    {
      var c := g.queue.waiting[i];
      NotifyNext(g, i);
      if c in g.calls && g.calls[c].watches {
        var state := QueueStateOf(g.queue, c);
        views := views[c := state];
      }
      i := i + 1;
    }
    assert g.queue.waiting[..i] == g.queue.waiting;
    g' := g.(views := views);
  }

  /** The views once the waiters in `front` have been called back. */
  ghost function NotifiedUpTo(g: Group, front: seq<CallId>): map<CallId, QueueState> {
    map c | c in g.views.Keys + (set w | w in front) && (c in g.views || Watching(g, c)) ::
      if c in front && Watching(g, c) then ViewOf(g.queue, c) else g.views[c]
  }

  lemma AllNotified(g: Group)
    ensures NotifiedUpTo(g, g.queue.waiting[..0]) == g.views && NotifiedUpTo(g, g.queue.waiting) == Notified(g).views
  {
  }

  lemma NotifyNext(g: Group, i: nat)
    requires i < |g.queue.waiting|
    ensures var c, before := g.queue.waiting[i], NotifiedUpTo(g, g.queue.waiting[..i]);
      NotifiedUpTo(g, g.queue.waiting[..i + 1]) == if Watching(g, c) then before[c := ViewOf(g.queue, c)] else before
  {
    assert g.queue.waiting[..i + 1] == g.queue.waiting[..i] + [g.queue.waiting[i]];
  }

  method Admit(g: Group, c: CallId, i: nat) returns (g': Group)
    requires c in g.calls
    ensures g' == Admitted(g, c, i)
  {
    var queue := DropWaiterFrom(g.queue, c);
    if g.calls[c].run != "" {
      queue := queue.(holders := queue.holders + [g.calls[c].run]);
    }
    g' := g.(queue := queue, calls := g.calls[c := g.calls[c].(pc := Holding(i))]);
    g' := NotifyWaiters(g');
  }

  method LeaveLine(g: Group, c: CallId, outcome: Outcome) returns (g': Group)
    requires c in g.calls
    ensures g' == LeftLine(g, c, outcome)
  {
    var queue := DropWaiterFrom(g.queue, c);
    g' := g.(queue := queue, calls := g.calls[c := g.calls[c].(pc := Finished(outcome))]);
    g' := NotifyWaiters(g');
  }

  // -------------------------------------------------------------- swaps

  predicate CurrentOpen(g: Group) {
    g.current.Some? ==> g.current.value < |g.sems| && !g.sems[g.current.value].retired
  }

  /** Every reachable group satisfies what the manager's methods rely on. */
  lemma ReachableIsOpen(actions: seq<Action>)
    ensures CurrentOpen(Run(INITIAL, actions))
  {
    InitialInv();
    RunKeeps(INITIAL, actions);
    var g := Run(INITIAL, actions);
    if g.current.Some? {
      assert SemExact(g, g.current.value);
    }
  }

  /** close(retired). Closing a closed channel panics in Go, so it must still be open. */
  method CloseRetired(g: Group, i: nat) returns (g': Group)
    requires i < |g.sems| && !g.sems[i].retired
    ensures g' == g.(sems := Retire(g.sems, Some(i)))
  {
    g' := g.(sems := g.sems[i := g.sems[i].(retired := true)]);
  }

  /** Makes sem the group's semaphore and retires the one it replaces. */
  method Replace(g: Group, sem: Sem) returns (g': Group)
    requires CurrentOpen(g)
    ensures g' == g.(sems := Retire(g.sems, g.current) + [sem], current := Some(|g.sems|))
  {
    g' := g.(sems := g.sems + [sem], current := Some(|g.sems|));
    if g.current.Some? {
      g' := CloseRetired(g', g.current.value);
    }
  }
}
