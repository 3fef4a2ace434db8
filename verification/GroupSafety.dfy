/** Every step of a concurrency group keeps the invariant; the theorems follow from it. */
module GroupSafety {
  import opened Basics
  import opened Groups

  // ---------------------------------------------------------------- parts of the invariant

  /** The call is counted, if at all, at semaphore i. */
  predicate CountedAt(call: Option<Call>, i: nat) {
    call.Some? && (OwnsToken(call.value) || (call.value.armed && InLine(call.value))) ==> call.value.pc.sem == i
  }

  /** One call changes, and with it only the counters of the semaphore i it is counted at. */
  lemma SemsAfterCall(g: Group, g': Group, c: CallId, call: Call, i: nat)
    requires SemsExact(g) && g'.calls == g.calls[c := call] && g'.current == g.current
    requires i < |g.sems| == |g'.sems| && g'.sems == g.sems[i := g'.sems[i]]
    requires CountedAt(Lookup(g.calls, c), i) && CountedAt(Some(call), i)
    requires g'.sems[i] == g.sems[i].(tokens := g'.sems[i].tokens, waiting := g'.sems[i].waiting)
    requires g'.sems[i].tokens <= g'.sems[i].limit
    requires g'.sems[i].tokens
          == g.sems[i].tokens - Tally(TokenOn(i), Lookup(g.calls, c)) + Tally(TokenOn(i), Some(call))
    requires g'.sems[i].waiting
          == g.sems[i].waiting - Tally(ArmedOn(i), Lookup(g.calls, c)) + Tally(ArmedOn(i), Some(call))
    ensures SemsExact(g')
  {
    forall j: nat | j < |g'.sems| ensures SemExact(g', j) {
      assert SemExact(g, j);
      CountUpdate(g.calls, c, call, TokenOn(j));
      CountUpdate(g.calls, c, call, ArmedOn(j));
    }
  }

  /** A call that is counted nowhere, before and after, changes no semaphore. */
  lemma SemsWithoutCall(g: Group, g': Group, c: CallId, call: Call)
    requires SemsExact(g) && g'.calls == g.calls[c := call] && g'.current == g.current && g'.sems == g.sems
    requires c in g.calls ==> !OwnsToken(g.calls[c]) && !g.calls[c].armed
    requires !OwnsToken(call) && !call.armed
    ensures SemsExact(g')
  {
    forall j: nat | j < |g'.sems| ensures SemExact(g', j) {
      assert SemExact(g, j);
      CountUpdate(g.calls, c, call, TokenOn(j));
      CountUpdate(g.calls, c, call, ArmedOn(j));
    }
  }

  lemma HoldersUnmoved(g: Group, g': Group, c: CallId, call: Call)
    requires HoldersExact(g) && g'.calls == g.calls[c := call] && g'.queue.holders == g.queue.holders
    requires c in g.calls ==> g.calls[c].run == call.run
    requires Tally(Listed, Lookup(g.calls, c)) == Tally(Listed, Some(call))
    ensures HoldersExact(g')
  {
    CountUpdate(g.calls, c, call, Listed);
    forall id ensures multiset(g'.queue.holders)[id] == Count(g'.calls, ListedAs(id)) {
      CountUpdate(g.calls, c, call, ListedAs(id));
    }
  }

  lemma HoldersPlus(g: Group, g': Group, c: CallId, call: Call)
    requires HoldersExact(g) && g'.calls == g.calls[c := call] && call.pc.Holding?
    requires g'.queue.holders == WithHolder(g.queue, call.run).holders
    requires c in g.calls ==> !Is(Listed, g.calls[c])
    ensures HoldersExact(g')
  {
    CountUpdate(g.calls, c, call, Listed);
    forall id ensures multiset(g'.queue.holders)[id] == Count(g'.calls, ListedAs(id)) {
      CountUpdate(g.calls, c, call, ListedAs(id));
    }
  }

  lemma HoldersMinus(g: Group, g': Group, c: CallId, call: Call)
    requires HoldersExact(g) && c in g.calls && g'.calls == g.calls[c := call]
    requires call.run == g.calls[c].run != "" && g.calls[c].pc.Returning? && call.pc.Finished?
    requires |g'.queue.holders| == |g.queue.holders| - 1
    requires forall id ::
      multiset(g'.queue.holders)[id] + (if call.run == id then 1 else 0) == multiset(g.queue.holders)[id]
    ensures HoldersExact(g')
  {
    CountUpdate(g.calls, c, call, Listed);
    forall id ensures multiset(g'.queue.holders)[id] == Count(g'.calls, ListedAs(id)) {
      CountUpdate(g.calls, c, call, ListedAs(id));
    }
  }

  /** A listed run is really in the list, so dropHolder finds it. */
  lemma ListedIsPresent(g: Group, c: CallId)
    requires HoldersExact(g) && c in g.calls && Is(Listed, g.calls[c])
    ensures g.calls[c].run in g.queue.holders
  {
    var id := g.calls[c].run;
    assert c in Members(g.calls, ListedAs(id));
    assert multiset(g.queue.holders)[id] == Count(g.calls, ListedAs(id)) > 0;
  }

  lemma LineNoDup(g: Group)
    requires LineExact(g)
    ensures NoDup(g.queue.waiting)
  {
    forall i, j | 0 <= i < j < |g.queue.waiting| ensures g.queue.waiting[i] != g.queue.waiting[j] {
      assert g.calls[g.queue.waiting[i]].ticket < g.calls[g.queue.waiting[j]].ticket;
    }
  }

  /** Removing one waiter keeps the others in ticket order. */
  lemma {:induction false} OrderedWithout(calls: map<CallId, Call>, s: seq<CallId>, c: CallId)
    requires forall x :: x in s ==> x in calls
    requires forall i, j :: 0 <= i < j < |s| ==> calls[s[i]].ticket < calls[s[j]].ticket
    ensures forall x :: x in RemoveFirst(s, c) ==> x in s
    ensures forall i, j :: 0 <= i < j < |RemoveFirst(s, c)| ==>
      calls[RemoveFirst(s, c)[i]].ticket < calls[RemoveFirst(s, c)[j]].ticket
  {
    if s != [] && s[0] != c {
      OrderedWithout(calls, s[1..], c);
      var rest := RemoveFirst(s[1..], c);
      forall j | 0 <= j < |rest| ensures calls[s[0]].ticket < calls[rest[j]].ticket {
        assert rest[j] in s[1..];
      }
    }
  }

  /** The call leaves the line (or stays out of it) and no other call changes. */
  lemma LineAfterLeaving(g: Group, g': Group, c: CallId, call: Call)
    requires LineExact(g) && c in g.calls && g'.calls == g.calls[c := call] && !InLine(call)
    requires g'.queue.waiting == RemoveFirst(g.queue.waiting, c)
    ensures LineExact(g')
  {
    LineNoDup(g);
    RemoveFirstMembers(g.queue.waiting, c);
    OrderedWithout(g.calls, g.queue.waiting, c);
    forall i, j | 0 <= i < j < |g'.queue.waiting|
      ensures g'.calls[g'.queue.waiting[i]].ticket < g'.calls[g'.queue.waiting[j]].ticket
    {
      assert g'.queue.waiting[i] in g'.queue.waiting && g'.queue.waiting[j] in g'.queue.waiting;
    }
  }

  lemma InvIgnoresViews(g: Group)
    requires Inv(g)
    ensures Inv(Notified(g))
  {
    forall i: nat | i < |g.sems| ensures SemExact(Notified(g), i) {
      assert SemExact(g, i);
    }
  }

  // ---------------------------------------------------------------- preservation, step by step

  lemma InstallKeeps(g: Group, declared: int, limit: int, overridden: bool)
    requires SemsExact(g) && CallsBound(g) && LineExact(g) && HoldersExact(g)
    requires g.override.Some? ==> g.override.value >= 1
    requires g.current.Some? ==> g.current.value < |g.sems|
    requires declared >= 1 && limit == Effective(g.override, declared) && overridden == g.override.Some?
    ensures Inv(Install(g, declared, limit, overridden))
  {
    InstallSems(g, declared, limit, overridden);
  }

  lemma InstallSems(g: Group, declared: int, limit: int, overridden: bool)
    requires SemsExact(g) && CallsBound(g) && declared >= 1 && limit >= 1
    requires g.current.Some? ==> g.current.value < |g.sems|
    ensures SemsExact(Install(g, declared, limit, overridden))
  {
    var g' := Install(g, declared, limit, overridden);
    forall i: nat | i < |g'.sems| ensures SemExact(g', i) {
      if i < |g.sems| {
        assert SemExact(g, i);
      } else {
        assert Members(g.calls, TokenOn(i)) == {};
        assert Members(g.calls, ArmedOn(i)) == {};
      }
    }
  }

  lemma SwapKeeps(g: Group, a: Action)
    requires Inv(g) && (a.Configure? || a.SetOverride? || a.ClearOverride?)
    ensures Inv(Step(g, a))
  {
    if g.current.Some? {
      assert SemExact(g, g.current.value);
    }
    match a {
      case Configure(None) =>
        var g' := Step(g, a);
        forall i: nat | i < |g'.sems| ensures SemExact(g', i) {
          assert SemExact(g, i);
        }
      case Configure(Some(d)) =>
        var declared := if d < 1 then DEFAULT_LIMIT else d;
        InstallKeeps(g, declared, Effective(g.override, declared), g.override.Some?);
      case SetOverride(limit) =>
        if limit >= 1 {
          OverrideOnlyKeeps(g, Some(limit));
        }
      case ClearOverride =>
        OverrideOnlyKeeps(g, None);
    }
  }

  /** Recording an override and then installing the effective limit. */
  lemma OverrideOnlyKeeps(g: Group, override: Option<int>)
    requires Inv(g) && (override.Some? ==> override.value >= 1)
    ensures Inv(if override.Some? then Overridden(g, override.value) else Cleared(g))
  {
    var g' := g.(override := override);
    forall i: nat | i < |g'.sems| ensures SemExact(g', i) {
      assert SemExact(g, i);
    }
    if g.current.Some? {
      var declared := g.sems[g.current.value].declared;
      assert SemExact(g, g.current.value);
      InstallKeeps(g', declared, Effective(override, declared), override.Some?);
    }
  }

  lemma FastAcquireKeeps(g: Group, c: CallId, run: string, watches: bool)
    requires Inv(g) && FastTakes(g, Acquire(c, run, watches))
    ensures Inv(Acquired(g, c, run, watches))
  {
    var g' := Acquired(g, c, run, watches);
    assert c !in g.queue.waiting;
    assert SemExact(g, g.current.value);
    SemsAfterCall(g, g', c, g'.calls[c], g.current.value);
    HoldersPlus(g, g', c, g'.calls[c]);
    assert LineExact(g');
  }

  lemma SlowAcquireKeeps(g: Group, c: CallId, run: string, watches: bool)
    requires Inv(g) && c !in g.calls && !FastTakes(g, Acquire(c, run, watches))
    ensures Inv(Acquired(g, c, run, watches))
  {
    var g' := Acquired(g, c, run, watches);
    SemsWithoutCall(g, g', c, g'.calls[c]);
    HoldersUnmoved(g, g', c, g'.calls[c]);
    JoinsLine(g, c, run, watches);
  }

  lemma JoinsLine(g: Group, c: CallId, run: string, watches: bool)
    requires LineExact(g) && CallsBound(g) && c !in g.calls && !FastTakes(g, Acquire(c, run, watches))
    ensures LineExact(Acquired(g, c, run, watches))
  {
    assert c !in g.queue.waiting;
  }

  /** A call that stays in line, or out of it, leaves the line as it was. */
  lemma LineUnmoved(g: Group, g': Group, c: CallId, call: Call)
    requires LineExact(g) && c in g.calls && g'.calls == g.calls[c := call]
    requires g'.queue.waiting == g.queue.waiting
    requires InLine(call) == InLine(g.calls[c]) && call.run == g.calls[c].run && call.ticket == g.calls[c].ticket
    ensures LineExact(g')
  {
  }

  lemma CounterKeeps(g: Group, c: CallId, armed: bool)
    requires Inv(g) && Enabled(g, if armed then Arm(c) else Disarm(c))
    ensures Inv(Counted(g, c, armed))
  {
    var g' := Counted(g, c, armed);
    CounterSems(g, c, armed);
    LineUnmoved(g, g', c, g'.calls[c]);
    HoldersUnmoved(g, g', c, g'.calls[c]);
  }

  lemma CounterSems(g: Group, c: CallId, armed: bool)
    requires SemsExact(g) && CallsBound(g) && Enabled(g, if armed then Arm(c) else Disarm(c))
    ensures SemsExact(Counted(g, c, armed))
  {
    var g' := Counted(g, c, armed);
    var i := g.calls[c].pc.sem;
    assert SemExact(g, i);
    SemsAfterCall(g, g', c, g'.calls[c], i);
  }

  lemma TakeKeeps(g: Group, c: CallId)
    requires Inv(g) && Enabled(g, SelectTake(c))
    ensures Inv(Taken(g, c))
  {
    var g' := Taken(g, c);
    TakeSems(g, c);
    LineUnmoved(g, g', c, g'.calls[c]);
    HoldersUnmoved(g, g', c, g'.calls[c]);
  }

  lemma TakeSems(g: Group, c: CallId)
    requires SemsExact(g) && CallsBound(g) && Enabled(g, SelectTake(c))
    ensures SemsExact(Taken(g, c))
  {
    var g' := Taken(g, c);
    var i := g.calls[c].pc.sem;
    assert SemExact(g, i);
    SemsAfterCall(g, g', c, g'.calls[c], i);
  }

  /** Cancel or retired won the select: only the program counter moves. */
  lemma SelectKeeps(g: Group, c: CallId, pc: Pc)
    requires Inv(g) && c in g.calls && g.calls[c].pc.Queued?
    requires pc.Cancelling? || (pc.Rebinding? && Enabled(g, SelectRetired(c)))
    requires pc.sem == g.calls[c].pc.sem
    ensures Inv(WithPc(g, c, pc))
  {
    var g' := WithPc(g, c, pc);
    SelectSems(g, c, pc);
    LineUnmoved(g, g', c, g'.calls[c]);
    HoldersUnmoved(g, g', c, g'.calls[c]);
  }

  lemma SelectSems(g: Group, c: CallId, pc: Pc)
    requires SemsExact(g) && CallsBound(g) && c in g.calls && g.calls[c].pc.Queued?
    requires (pc.Cancelling? || pc.Rebinding?) && pc.sem == g.calls[c].pc.sem
    ensures SemsExact(WithPc(g, c, pc))
  {
    var g' := WithPc(g, c, pc);
    assert SemExact(g, pc.sem);
    SemsAfterCall(g, g', c, g'.calls[c], pc.sem);
  }

  /** Registering as a holder, from a token already taken or taken in the same section. */
  lemma AdmittedKeeps(g: Group, c: CallId, i: nat, taken: bool)
    requires Inv(g) && c in g.calls && InLine(g.calls[c]) && !g.calls[c].armed && i < |g.sems|
    requires if taken then g.calls[c].pc == Took(i) else !g.calls[c].pc.Took? && HasRoom(g.sems, i)
    ensures Inv(Admitted(if taken then g else g.(sems := AddTokens(g.sems, i, 1)), c, i))
  {
    var base := if taken then g else g.(sems := AddTokens(g.sems, i, 1));
    var g' := WithPc(base.(queue := WithHolder(WithoutWaiter(g.queue, c), g.calls[c].run)), c, Holding(i));
    var call := g'.calls[c];
    AdmittedSems(g, g', c, i, taken);
    HoldersPlus(g, g', c, call);
    LineAfterLeaving(g, g', c, call);
    InvIgnoresViews(g');
  }

  lemma AdmittedSems(g: Group, g': Group, c: CallId, i: nat, taken: bool)
    requires SemsExact(g) && c in g.calls && InLine(g.calls[c]) && !g.calls[c].armed && i < |g.sems|
    requires if taken then g.calls[c].pc == Took(i) else !g.calls[c].pc.Took? && HasRoom(g.sems, i)
    requires g'.calls == g.calls[c := g.calls[c].(pc := Holding(i))] && g'.current == g.current
    requires g'.sems == if taken then g.sems else AddTokens(g.sems, i, 1)
    ensures SemsExact(g')
  {
    assert SemExact(g, i);
    SemsAfterCall(g, g', c, g'.calls[c], i);
  }

  lemma LeftLineKeeps(g: Group, c: CallId, outcome: Outcome)
    requires Inv(g) && c in g.calls && (g.calls[c].pc.Cancelling? || g.calls[c].pc.Rebinding?) && !g.calls[c].armed
    ensures Inv(LeftLine(g, c, outcome))
  {
    var g' := WithPc(g.(queue := WithoutWaiter(g.queue, c)), c, Finished(outcome));
    var call := g'.calls[c];
    SemsWithoutCall(g, g', c, call);
    HoldersUnmoved(g, g', c, call);
    LineAfterLeaving(g, g', c, call);
    InvIgnoresViews(g');
  }

  lemma RebindKeeps(g: Group, c: CallId)
    requires Inv(g) && c in g.calls && g.calls[c].pc.Rebinding? && !g.calls[c].armed
    ensures Inv(Rebound(g, c))
  {
    if g.current.None? {
      LeftLineKeeps(g, c, RemovedWhileQueued);
    } else if HasRoom(g.sems, g.current.value) {
      AdmittedKeeps(g, c, g.current.value, false);
    } else {
      var g' := Rebound(g, c);
      SemsWithoutCall(g, g', c, g'.calls[c]);
      HoldersUnmoved(g, g', c, g'.calls[c]);
    }
  }

  lemma ReturnKeeps(g: Group, c: CallId)
    requires Inv(g) && Enabled(g, ReturnToken(c))
    ensures Inv(Returned(g, c))
  {
    var g' := Returned(g, c);
    ReturnSems(g, c);
    HoldersUnmoved(g, g', c, g'.calls[c]);
  }

  lemma ReturnSems(g: Group, c: CallId)
    requires Inv(g) && Enabled(g, ReturnToken(c))
    ensures SemsExact(Returned(g, c))
  {
    var g' := Returned(g, c);
    var i := g.calls[c].pc.sem;
    assert SemExact(g, i);
    SemsAfterCall(g, g', c, g'.calls[c], i);
  }

  lemma DroppedHolder(g: Group, c: CallId)
    requires HoldersExact(g) && c in g.calls && g.calls[c].pc.Returning?
    ensures HoldersExact(WithPc(g.(queue := WithoutHolder(g.queue, g.calls[c].run)), c, Finished(Released)))
  {
    var run := g.calls[c].run;
    var g' := WithPc(g.(queue := WithoutHolder(g.queue, run)), c, Finished(Released));
    if run == "" {
      HoldersUnmoved(g, g', c, g'.calls[c]);
    } else {
      ListedIsPresent(g, c);
      RemoveFirstCounts(g.queue.holders, run);
      HoldersMinus(g, g', c, g'.calls[c]);
    }
  }

  lemma DropKeeps(g: Group, c: CallId)
    requires Inv(g) && c in g.calls && g.calls[c].pc.Returning?
    ensures Inv(Dropped(g, c))
  {
    var g' := WithPc(g.(queue := WithoutHolder(g.queue, g.calls[c].run)), c, Finished(Released));
    SemsWithoutCall(g, g', c, g'.calls[c]);
    DroppedHolder(g, c);
    InvIgnoresViews(g');
  }

  lemma StepKeeps(g: Group, a: Action)
    requires Inv(g)
    ensures Inv(Step(g, a))
  {
    if Enabled(g, a) {
      match a {
        case Configure(_) => SwapKeeps(g, a);
        case SetOverride(_) => SwapKeeps(g, a);
        case ClearOverride => SwapKeeps(g, a);
        case Acquire(c, run, watches) =>
          if FastTakes(g, a) { FastAcquireKeeps(g, c, run, watches); } else { SlowAcquireKeeps(g, c, run, watches); }
        case Arm(c) => CounterKeeps(g, c, true);
        case Disarm(c) => CounterKeeps(g, c, false);
        case SelectTake(c) => TakeKeeps(g, c);
        case SelectCancel(c) => SelectKeeps(g, c, Cancelling(g.calls[c].pc.sem));
        case SelectRetired(c) => SelectKeeps(g, c, Rebinding(g.calls[c].pc.sem));
        case Register(c) => AdmittedKeeps(g, c, g.calls[c].pc.sem, true);
        case FinishCancel(c) => LeftLineKeeps(g, c, Cancelled);
        case Rebind(c) => RebindKeeps(g, c);
        case ReturnToken(c) => ReturnKeeps(g, c);
        case DropHolder(c) => DropKeeps(g, c);
      }
    }
  }

  lemma {:induction false} RunKeeps(g: Group, actions: seq<Action>)
    requires Inv(g)
    ensures Inv(Run(g, actions))
    decreases |actions|
  {
    if actions != [] {
      StepKeeps(g, actions[0]);
      RunKeeps(Step(g, actions[0]), actions[1..]);
    }
  }
}
