/**
  Which limit is in force, told from the actions alone: what the last configuration declared, unless
  an operator's override stands. And what an acquire gets under it.
 */
module GroupLimits {
  import opened Basics
  import opened Groups
  import opened GroupSafety
  import opened GroupTheorems

  /** The limit of the last configuration, at least 1; None if that does not declare the group. */
  function LastDeclared(actions: seq<Action>): Option<int> {
    if actions == [] then None
    else
      match actions[|actions| - 1]
      case Configure(d) => if d.None? then None else if d.value < 1 then Some(1) else d
      case _ => LastDeclared(actions[..|actions| - 1])
  }

  /** The operator's override that stands; one below 1 is refused. */
  function LastOverride(actions: seq<Action>): Option<int> {
    if actions == [] then None
    else
      var front := actions[..|actions| - 1];
      match actions[|actions| - 1]
      case SetOverride(limit) => if limit >= 1 then Some(limit) else LastOverride(front)
      case ClearOverride => None
      case _ => LastOverride(front)
  }

  function InForce(actions: seq<Action>): Option<int> {
    if LastDeclared(actions).None? then None
    else if LastOverride(actions).Some? then LastOverride(actions)
    else LastDeclared(actions)
  }

  lemma {:induction false} RunMore(g: Group, actions: seq<Action>, a: Action)
    ensures Run(g, actions + [a]) == Step(Run(g, actions), a)
    decreases |actions|
  {
    if actions == [] {
      assert actions + [a] == [a] && [a][1..] == [];
    } else {
      assert (actions + [a])[1..] == actions[1..] + [a];
      RunMore(Step(g, actions[0]), actions[1..], a);
    }
  }

  /** The group's override and declared limit are these. */
  predicate Limited(g: Group, declared: Option<int>, override: Option<int>) {
    && g.override == override && (g.current.Some? <==> declared.Some?)
    && (g.current.Some? ==> g.current.value < |g.sems| && g.sems[g.current.value].declared == declared.value)
  }

  /** Calls come and go without touching either. */
  lemma CallKeepsLimits(g: Group, a: Action)
    requires !a.Configure? && !a.SetOverride? && !a.ClearOverride?
    ensures var g' := Step(g, a);
      && g'.override == g.override && g'.current == g.current && |g'.sems| == |g.sems|
      && forall i :: 0 <= i < |g.sems| ==>
           g'.sems[i].declared == g.sems[i].declared && g'.sems[i].limit == g.sems[i].limit
  {
  }

  lemma StepLimits(g: Group, actions: seq<Action>)
    requires actions != [] && Inv(g)
    requires var front := actions[..|actions| - 1]; Limited(g, LastDeclared(front), LastOverride(front))
    ensures Limited(Step(g, actions[|actions| - 1]), LastDeclared(actions), LastOverride(actions))
  {
    var a := actions[|actions| - 1];
    if !a.Configure? && !a.SetOverride? && !a.ClearOverride? {
      CallKeepsLimits(g, a);
    }
  }

  lemma {:induction false} RunLimits(actions: seq<Action>)
    ensures Limited(Run(INITIAL, actions), LastDeclared(actions), LastOverride(actions))
  {
    if actions != [] {
      var front := actions[..|actions| - 1];
      RunLimits(front);
      InitialInv();
      RunKeeps(INITIAL, front);
      assert actions == front + [actions[|actions| - 1]];
      RunMore(INITIAL, front, actions[|actions| - 1]);
      StepLimits(Run(INITIAL, front), actions);
    }
  }

  /**
    After every run the group has a semaphore exactly if the last configuration declared it; that
    semaphore remembers the declared limit, also under an override, and its limit is the override
    that stands or else the declared one.
   */
  lemma LimitInForce(actions: seq<Action>)
    ensures var g := Run(INITIAL, actions);
      && g.override == LastOverride(actions)
      && (g.current.Some? <==> LastDeclared(actions).Some?)
      && (g.current.Some? ==>
            && g.current.value < |g.sems|
            && var sem := g.sems[g.current.value];
            && sem.declared == LastDeclared(actions).value && Some(sem.limit) == InForce(actions)
            && sem.overridden == LastOverride(actions).Some?)
  {
    RunLimits(actions);
    InitialInv();
    RunKeeps(INITIAL, actions);
  }

  lemma KeepsOrSwaps(g: Group, a: Action)
    requires Inv(g) && g.current.Some? && Step(g, a).current.Some?
    ensures var g', i := Step(g, a), g.current.value;
      && i < |g.sems| && g'.current.value < |g'.sems|
      && (g'.sems[g'.current.value].limit == g.sems[i].limit ==> g'.current == g.current && |g'.sems| == |g.sems|)
      && (g'.sems[g'.current.value].limit != g.sems[i].limit ==> g'.current == Some(|g.sems|))
  {
    if !a.Configure? && !a.SetOverride? && !a.ClearOverride? {
      CallKeepsLimits(g, a);
    }
  }

  /** A semaphore, with the slots taken from it, is kept exactly as long as the limit in force stays. */
  lemma SwapsExactlyOnChange(actions: seq<Action>, a: Action)
    ensures var g, g' := Run(INITIAL, actions), Run(INITIAL, actions + [a]);
      InForce(actions).Some? && InForce(actions + [a]).Some? ==>
        (g'.current == g.current <==> InForce(actions + [a]) == InForce(actions))
  {
    var g := Run(INITIAL, actions);
    LimitInForce(actions);
    LimitInForce(actions + [a]);
    RunMore(INITIAL, actions, a);
    InitialInv();
    RunKeeps(INITIAL, actions);
    if g.current.Some? && Step(g, a).current.Some? {
      KeepsOrSwaps(g, a);
    }
  }

  // ---------------------------------------------------------------- what an acquire gets

  /** How many calls own a slot of the group's current semaphore. */
  function Running(g: Group): nat {
    |set d | d in g.calls && OwnsToken(g.calls[d]) && Some(g.calls[d].pc.sem) == g.current|
  }

  lemma RunningIsTokens(g: Group)
    requires Inv(g) && g.current.Some?
    ensures g.current.value < |g.sems| && g.sems[g.current.value].tokens == Running(g)
  {
    var i := g.current.value;
    assert SemExact(g, i);
    assert Members(g.calls, TokenOn(i))
        == set d | d in g.calls && OwnsToken(g.calls[d]) && Some(g.calls[d].pc.sem) == g.current;
  }

  /** A new acquire fails for an undeclared group, has a slot at once below the limit in force, and queues at it. */
  lemma AcquireOutcome(actions: seq<Action>, c: CallId, run: string, watches: bool)
    requires c !in Run(INITIAL, actions).calls
    ensures var g := Run(INITIAL, actions);
      var call := Lookup(Run(INITIAL, actions + [Acquire(c, run, watches)]).calls, c);
      && call.Some? && call.value.run == run && call.value.watches == watches
      && (InForce(actions).None? <==> g.current.None?)
      && call.value.pc ==
         if InForce(actions).None? then Finished(UnknownGroup)
         else if Running(g) < InForce(actions).value then Holding(g.current.value)
         else Queued(g.current.value)
  {
    var g := Run(INITIAL, actions);
    RunMore(INITIAL, actions, Acquire(c, run, watches));
    LimitInForce(actions);
    InitialInv();
    RunKeeps(INITIAL, actions);
    if g.current.Some? {
      RunningIsTokens(g);
    }
  }

  /** A waiter whose semaphore was retired: out if the group is gone, admitted below the limit, queued at it. */
  lemma RebindOutcome(actions: seq<Action>, c: CallId)
    requires Enabled(Run(INITIAL, actions), Rebind(c))
    ensures var g := Run(INITIAL, actions);
      var call := Lookup(Run(INITIAL, actions + [Rebind(c)]).calls, c);
      && call.Some?
      && (InForce(actions).None? <==> g.current.None?)
      && call.value.pc ==
         if InForce(actions).None? then Finished(RemovedWhileQueued)
         else if Running(g) < InForce(actions).value then Holding(g.current.value)
         else Queued(g.current.value)
  {
    var g := Run(INITIAL, actions);
    RunMore(INITIAL, actions, Rebind(c));
    LimitInForce(actions);
    InitialInv();
    RunKeeps(INITIAL, actions);
    if g.current.Some? {
      RunningIsTokens(g);
    }
  }

  /** A cancelled acquire ends as cancelled, a taken slot as held, and a released one as released. */
  lemma CallOutcome(g: Group, a: Action)
    requires Enabled(g, a)
    ensures a.FinishCancel? ==> Step(g, a).calls[a.c].pc == Finished(Cancelled)
    ensures a.Register? ==> Step(g, a).calls[a.c].pc == Holding(g.calls[a.c].pc.sem)
    ensures a.DropHolder? ==> Step(g, a).calls[a.c].pc == Finished(Released)
  {
  }
}
