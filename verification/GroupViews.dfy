/**
  What queued callers are told (internal/concurrency/manager.go): each caller with a callback is
  promised a fresh view whenever its view changes. Callers without a run id wait in line but are not
  in the advisory list that is notified.
 */
module GroupViews {
  import opened Basics
  import opened Groups
  import opened GroupSafety
  import opened GroupTheorems

  // ---------------------------------------------------------------- listed waiters

  /** The last view delivered to every listed waiter with a callback is the current one. */
  ghost predicate ListedFresh(g: Group) {
    forall c :: Watching(g, c) ==> c in g.views && g.views[c] == ViewOf(g.queue, c)
  }

  /** A slot taken on the fast path registers a holder but re-delivers nothing. */
  ghost predicate TakesSilently(g: Group, a: Action) {
    FastTakes(g, a) && a.run != "" && exists c :: Watching(g, c)
  }

  lemma EnqueueStaysFresh(g: Group, c: CallId, run: string, watches: bool)
    requires Inv(g) && ListedFresh(g) && c !in g.calls && !FastTakes(g, Acquire(c, run, watches))
    ensures ListedFresh(Acquired(g, c, run, watches))
  {
    var g' := Acquired(g, c, run, watches);
    forall x | Watching(g', x) ensures x in g'.views && g'.views[x] == ViewOf(g'.queue, x) {
      if x != c {
        assert Watching(g, x);
        PositionAppend(g.queue.waiting, c, x);
      }
    }
  }

  lemma SilentTakeIsStale(g: Group, c: CallId, run: string, watches: bool)
    requires Inv(g) && ListedFresh(g) && FastTakes(g, Acquire(c, run, watches)) && run != ""
    ensures ListedFresh(Acquired(g, c, run, watches)) <==> !exists x :: Watching(g, x)
  {
    var g' := Acquired(g, c, run, watches);
    assert c !in g.queue.waiting;
    forall x ensures Watching(g', x) <==> Watching(g, x) {}
    if x :| Watching(g, x) {
      assert g'.views[x].holders == g.queue.holders;
      assert |ViewOf(g'.queue, x).holders| == |g.queue.holders| + 1;
    }
  }

  lemma SameQueueStaysFresh(g: Group, g': Group)
    requires ListedFresh(g) && g'.queue == g.queue && g'.views == g.views
    requires forall c :: c in g.queue.waiting && c in g'.calls ==>
      c in g.calls && g'.calls[c].watches == g.calls[c].watches
    ensures ListedFresh(g')
  {
    forall c | Watching(g', c) ensures c in g'.views && g'.views[c] == ViewOf(g'.queue, c) {
      assert Watching(g, c);
    }
  }

  /** Swaps, counters, selects, returned tokens and a re-bind that stays queued leave the lists alone. */
  lemma QuietStep(g: Group, a: Action)
    requires Enabled(g, a) && !a.Acquire? && !a.Register? && !a.FinishCancel? && !a.DropHolder?
    requires a.Rebind? ==> Rebound(g, a.c).queue == g.queue
    ensures var g' := Step(g, a);
      && g'.queue == g.queue && g'.calls.Keys == g.calls.Keys
      && (forall c :: c in g.calls ==> g'.calls[c].watches == g.calls[c].watches)
      && (a.Rebind? || g'.views == g.views)
  {
    match a {
      case Configure(_) => QuietSwap(g, a);
      case SetOverride(_) => QuietSwap(g, a);
      case ClearOverride => QuietSwap(g, a);
      case _ =>
    }
  }

  lemma QuietSwap(g: Group, a: Action)
    requires a.Configure? || a.SetOverride? || a.ClearOverride?
    ensures var g' := Step(g, a);
      g'.queue == g.queue && g'.calls == g.calls && g'.views == g.views
  {
  }

  lemma NotifiedIsFresh(g: Group)
    ensures ListedFresh(Notified(g))
  {
  }

  /** Every step that changes the line or drops a holder makes all views fresh. */
  lemma NotifyingStepIsFresh(g: Group, a: Action)
    requires Inv(g) && Enabled(g, a)
    requires a.Register? || a.FinishCancel? || a.DropHolder? || (a.Rebind? && Rebound(g, a.c).queue != g.queue)
    ensures ListedFresh(Step(g, a))
  {
    var run := g.calls[a.c].run;
    match a {
      case Register(c) =>
        NotifiedIsFresh(WithPc(g.(queue := WithHolder(WithoutWaiter(g.queue, c), run)), c, Holding(g.calls[c].pc.sem)));
      case FinishCancel(c) => NotifiedIsFresh(WithPc(g.(queue := WithoutWaiter(g.queue, c)), c, Finished(Cancelled)));
      case Rebind(c) =>
      case DropHolder(c) => NotifiedIsFresh(WithPc(g.(queue := WithoutHolder(g.queue, run)), c, Finished(Released)));
    }
  }

  /**
    Once the views of the listed waiters are fresh they stay fresh through any step except one: a
    named run that takes a slot on the fast path while one of them watches.
   */
  lemma ListedStayFreshUnless(g: Group, a: Action)
    requires Inv(g) && ListedFresh(g)
    ensures ListedFresh(Step(g, a)) <==> !TakesSilently(g, a)
  {
    if !Enabled(g, a) {
    } else if FastTakes(g, a) {
      FastTakeFreshness(g, a.c, a.run, a.watches);
    } else if a.Acquire? {
      EnqueueStaysFresh(g, a.c, a.run, a.watches);
    } else if a.Register? || a.FinishCancel? || a.DropHolder? || (a.Rebind? && Rebound(g, a.c).queue != g.queue) {
      NotifyingStepIsFresh(g, a);
    } else {
      QuietStaysFresh(g, a);
    }
  }

  lemma FastTakeFreshness(g: Group, c: CallId, run: string, watches: bool)
    requires Inv(g) && ListedFresh(g) && FastTakes(g, Acquire(c, run, watches))
    ensures ListedFresh(Acquired(g, c, run, watches)) <==> !TakesSilently(g, Acquire(c, run, watches))
  {
    if run == "" {
      assert c !in g.queue.waiting;
      SameQueueStaysFresh(g, Acquired(g, c, run, watches));
    } else {
      SilentTakeIsStale(g, c, run, watches);
    }
  }

  lemma RebindStaysFresh(g: Group, c: CallId)
    requires ListedFresh(g) && c in g.calls && Rebound(g, c).queue == g.queue
    ensures ListedFresh(Rebound(g, c))
  {
    if g.current.None? || g.current.value >= |g.sems| {
      NotifiedIsFresh(WithPc(g.(queue := WithoutWaiter(g.queue, c)), c, Finished(RemovedWhileQueued)));
    } else if HasRoom(g.sems, g.current.value) {
      var i := g.current.value;
      var taken := g.(sems := AddTokens(g.sems, i, 1));
      NotifiedIsFresh(WithPc(taken.(queue := WithHolder(WithoutWaiter(g.queue, c), g.calls[c].run)), c, Holding(i)));
    } else {
      SameQueueStaysFresh(g, Rebound(g, c));
    }
  }

  lemma QuietStaysFresh(g: Group, a: Action)
    requires ListedFresh(g) && Enabled(g, a) && !a.Acquire? && !a.Register? && !a.FinishCancel? && !a.DropHolder?
    requires a.Rebind? ==> Rebound(g, a.c).queue == g.queue
    ensures ListedFresh(Step(g, a))
  {
    QuietStep(g, a);
    if a.Rebind? {
      RebindStaysFresh(g, a.c);
    } else {
      SameQueueStaysFresh(g, Step(g, a));
    }
  }

  /** The documentation promises a fresh view on every change; this run leaves b with a stale one. */
  lemma StaleViewRun()
    ensures var g := Run(INITIAL, [Configure(Some(1)), Acquire(0, "a", false), Acquire(1, "b", true),
                                   SetOverride(2), Acquire(2, "c", false)]);
      && g.calls[1].pc.Queued?
      && g.views[1] == QueueState(["a"], 1)
      && ViewOf(g.queue, 1) == QueueState(["a", "c"], 1)
  {
    RunFive(INITIAL, Configure(Some(1)), Acquire(0, "a", false), Acquire(1, "b", true),
            SetOverride(2), Acquire(2, "c", false));
    var g1 := Step(INITIAL, Configure(Some(1)));
    assert g1.sems == [NewSem(1, 1, false)];
    var g3 := Step(Step(g1, Acquire(0, "a", false)), Acquire(1, "b", true));
    assert g3.queue == GroupQueue(["a"], [1]) && g3.sems == [Sem(1, 1, false, 1, false, 0)];
    SwapThenAcquire(g3, 2, 2, "c");
  }

  // ---------------------------------------------------------------- waiters without a run id

  /** In line with a callback, listed or not. */
  predicate Waits(g: Group, c: CallId) {
    c in g.calls && g.calls[c].watches && InLine(g.calls[c])
  }

  predicate Nameless(g: Group, c: CallId) {
    Waits(g, c) && g.calls[c].run == ""
  }

  ghost predicate NamelessFresh(g: Group) {
    forall c :: Nameless(g, c) ==> c in g.views && g.views[c] == ViewOf(g.queue, c)
  }

  /** The last view delivered to every queued caller with a callback is the current one. */
  ghost predicate Fresh(g: Group) {
    forall c :: Waits(g, c) ==> c in g.views && g.views[c] == ViewOf(g.queue, c)
  }

  lemma FreshParts(g: Group)
    requires Inv(g)
    ensures Fresh(g) <==> ListedFresh(g) && NamelessFresh(g)
  {
    forall c ensures Waits(g, c) <==> Watching(g, c) || Nameless(g, c) {
      assert c in g.queue.waiting <==> c in g.calls && g.calls[c].run != "" && InLine(g.calls[c]);
    }
  }

  lemma {:induction false} PositionAbsent(s: seq<CallId>, c: CallId)
    requires c !in s
    ensures Position(s, c) == 0
  {
    if s != [] {
      PositionAbsent(s[1..], c);
    }
  }

  lemma NamelessView(g: Group, c: CallId)
    requires Inv(g) && Nameless(g, c)
    ensures ViewOf(g.queue, c) == QueueState(g.queue.holders, 0)
  {
    assert c !in g.queue.waiting;
    PositionAbsent(g.queue.waiting, c);
  }

  /** A named run joins or leaves the holders. */
  predicate ChangesHolders(g: Group, a: Action) {
    && Enabled(g, a)
    && match a
       case Acquire(_, run, _) => FastTakes(g, a) && run != ""
       case Register(c) => g.calls[c].run != ""
       case Rebind(c) => g.calls[c].run != "" && g.current.Some? && HasRoom(g.sems, g.current.value)
       case DropHolder(c) => g.calls[c].run != ""
       case _ => false
  }

  lemma HoldersChange(g: Group, a: Action)
    requires Inv(g)
    ensures Step(g, a).queue.holders != g.queue.holders <==> ChangesHolders(g, a)
  {
    if Enabled(g, a) {
      match a {
        case DropHolder(c) => DropShrinks(g, c);
        case Register(c) => assert ChangesHolders(g, a) ==> |Step(g, a).queue.holders| == |g.queue.holders| + 1;
        case Rebind(c) => assert ChangesHolders(g, a) ==> |Step(g, a).queue.holders| == |g.queue.holders| + 1;
        case Acquire(c, run, watches) =>
          assert ChangesHolders(g, a) ==> |Step(g, a).queue.holders| == |g.queue.holders| + 1;
        case Configure(_) => QuietSwap(g, a);
        case SetOverride(_) => QuietSwap(g, a);
        case ClearOverride => QuietSwap(g, a);
        case _ =>
      }
    }
  }

  lemma DropShrinks(g: Group, c: CallId)
    requires Inv(g) && c in g.calls && g.calls[c].pc.Returning?
    ensures Dropped(g, c).queue.holders != g.queue.holders <==> g.calls[c].run != ""
  {
    if g.calls[c].run != "" {
      ListedIsPresent(g, c);
      RemoveFirstCounts(g.queue.holders, g.calls[c].run);
    }
  }

  /** Nothing is ever delivered again to a waiter without a run id. */
  lemma NamelessViewKept(g: Group, a: Action, x: CallId)
    requires Inv(g) && Nameless(g, x) && x in g.views
    ensures x in Step(g, a).views && Step(g, a).views[x] == g.views[x]
  {
    assert x !in g.queue.waiting;
    if Enabled(g, a) {
      match a {
        case Configure(_) => QuietSwap(g, a);
        case SetOverride(_) => QuietSwap(g, a);
        case ClearOverride => QuietSwap(g, a);
        case Register(c) => RemoveFirstMembers(g.queue.waiting, c);
        case FinishCancel(c) => RemoveFirstMembers(g.queue.waiting, c);
        case Rebind(c) => RemoveFirstMembers(g.queue.waiting, c);
        case _ =>
      }
    }
  }

  /** A waiter without a run id was one before, or has just queued with a fresh view. */
  lemma NamelessFrom(g: Group, a: Action, x: CallId)
    requires Inv(g) && Nameless(Step(g, a), x)
    ensures Nameless(g, x) ||
      (a.Acquire? && !ChangesHolders(g, a) && Lookup(Step(g, a).views, x) == Some(ViewOf(Step(g, a).queue, x)))
  {
    if Enabled(g, a) {
      match a {
        case Configure(_) => QuietSwap(g, a);
        case SetOverride(_) => QuietSwap(g, a);
        case ClearOverride => QuietSwap(g, a);
        case _ =>
      }
    }
  }

  lemma NamelessStays(g: Group, a: Action, x: CallId)
    requires Inv(g) && ChangesHolders(g, a) && Nameless(g, x)
    ensures Nameless(Step(g, a), x)
  {
  }

  lemma NamelessStayFreshUnless(g: Group, a: Action)
    requires Inv(g) && NamelessFresh(g)
    ensures NamelessFresh(Step(g, a)) <==> !(ChangesHolders(g, a) && exists x :: Nameless(g, x))
  {
    var g' := Step(g, a);
    StepKeeps(g, a);
    HoldersChange(g, a);
    if ChangesHolders(g, a) {
      if x :| Nameless(g, x) {
        NamelessStays(g, a, x);
        NamelessViewKept(g, a, x);
        NamelessView(g, x);
        NamelessView(g', x);
      } else {
        forall x ensures !Nameless(g', x) {
          if Nameless(g', x) {
            NamelessFrom(g, a, x);
          }
        }
      }
    } else {
      forall x | Nameless(g', x) ensures x in g'.views && g'.views[x] == ViewOf(g'.queue, x) {
        NamelessFrom(g, a, x);
        if Nameless(g, x) {
          NamelessViewKept(g, a, x);
          NamelessView(g, x);
          NamelessView(g', x);
        }
      }
    }
  }

  // ---------------------------------------------------------------- every queued caller

  /**
    The two ways a view goes stale: a named run takes a slot on the fast path while a listed waiter
    watches, or the holders change at all while a waiter without a run id watches.
   */
  ghost predicate LeavesStale(g: Group, a: Action) {
    TakesSilently(g, a) || (ChangesHolders(g, a) && exists c :: Nameless(g, c))
  }

  /** Once every queued caller's view is fresh, a step keeps them all fresh if and only if it is neither. */
  lemma ViewsStayFreshUnless(g: Group, a: Action)
    requires Inv(g) && Fresh(g)
    ensures Fresh(Step(g, a)) <==> !LeavesStale(g, a)
  {
    StepKeeps(g, a);
    FreshParts(g);
    FreshParts(Step(g, a));
    ListedStayFreshUnless(g, a);
    NamelessStayFreshUnless(g, a);
  }

  ghost predicate NeverStale(g: Group, actions: seq<Action>)
    decreases |actions|
  {
    actions == [] || (!LeavesStale(g, actions[0]) && NeverStale(Step(g, actions[0]), actions[1..]))
  }

  /** Every view is fresh at the start and after each step. */
  ghost predicate FreshThroughout(g: Group, actions: seq<Action>)
    decreases |actions|
  {
    Fresh(g) && (actions == [] || FreshThroughout(Step(g, actions[0]), actions[1..]))
  }

  lemma {:induction false} RunFreshUnless(g: Group, actions: seq<Action>)
    requires Inv(g) && Fresh(g)
    ensures FreshThroughout(g, actions) <==> NeverStale(g, actions)
    decreases |actions|
  {
    if actions != [] {
      ViewsStayFreshUnless(g, actions[0]);
      StepKeeps(g, actions[0]);
      if Fresh(Step(g, actions[0])) {
        RunFreshUnless(Step(g, actions[0]), actions[1..]);
      }
    }
  }

  /** From the start, each queued caller is told every change of its view exactly in the runs without such a step. */
  lemma ViewsFreshOverRuns(actions: seq<Action>)
    ensures FreshThroughout(INITIAL, actions) <==> NeverStale(INITIAL, actions)
  {
    InitialInv();
    RunFreshUnless(INITIAL, actions);
  }

  /** A caller without a run id is told of a holder once, and never that the holder has gone. */
  lemma NamelessStaleRun()
    ensures var g := Run(INITIAL, [Configure(Some(1)), Acquire(0, "a", false), Acquire(1, "", true),
                                   ReturnToken(0), DropHolder(0)]);
      && Waits(g, 1) && g.calls[1].pc.Queued?
      && Lookup(g.views, 1) == Some(QueueState(["a"], 0))
      && ViewOf(g.queue, 1) == QueueState([], 0)
  {
    RunFive(INITIAL, Configure(Some(1)), Acquire(0, "a", false), Acquire(1, "", true), ReturnToken(0), DropHolder(0));
    OneHolds();
    var g := Step(Step(Step(INITIAL, Configure(Some(1))), Acquire(0, "a", false)), Acquire(1, "", true));
    OnlyHolderLeaves(g, 0, 0);
  }

  lemma OnlyHolderLeaves(g: Group, c: CallId, i: nat)
    requires c in g.calls && g.calls[c].pc == Holding(i) && i < |g.sems| && g.sems[i].tokens > 0
    requires g.calls[c].run != "" && g.queue == GroupQueue([g.calls[c].run], [])
    ensures var g' := Step(Step(g, ReturnToken(c)), DropHolder(c));
      && g'.queue == GroupQueue([], []) && g'.views == g.views
      && forall x :: x in g.calls && x != c ==> x in g'.calls && g'.calls[x] == g.calls[x]
  {
    var returned := Step(g, ReturnToken(c));
    assert returned.queue == g.queue && returned.views == g.views && returned.calls[c].pc == Returning(i);
    var run := g.calls[c].run;
    assert RemoveFirst([run], run) == [];
    assert Step(returned, DropHolder(c)).views == g.views;
  }

  lemma OneHolds()
    ensures var g := Step(Step(Step(INITIAL, Configure(Some(1))), Acquire(0, "a", false)), Acquire(1, "", true));
      && g.calls == map[0 := Call("a", false, false, 0, Holding(0)), 1 := Call("", true, false, 0, Queued(0))]
      && g.queue == GroupQueue(["a"], []) && g.views == map[1 := QueueState(["a"], 0)]
      && g.sems == [Sem(1, 1, false, 1, false, 0)]
  {
    var g1 := Step(INITIAL, Configure(Some(1)));
    assert g1.sems == [NewSem(1, 1, false)];
  }
}
