/** What the concurrency groups promise, over every run of the state machine. */
module GroupTheorems {
  import opened Basics
  import opened Groups
  import opened GroupSafety

  /** The slots in use over the group's first k semaphores. */
  function TotalTokens(sems: seq<Sem>, k: nat): nat
    requires k <= |sems|
  {
    if k == 0 then 0 else TotalTokens(sems, k - 1) + sems[k - 1].tokens
  }

  /** The slots in use on semaphores that a swap has retired. */
  function RetiredTokens(sems: seq<Sem>, k: nat): nat
    requires k <= |sems|
  {
    if k == 0 then 0
    else RetiredTokens(sems, k - 1) + if sems[k - 1].retired then sems[k - 1].tokens else 0
  }

  lemma InitialInv()
    ensures Inv(INITIAL)
  {
    assert Members(INITIAL.calls, Listed) == {};
    forall id ensures multiset(INITIAL.queue.holders)[id] == Count(INITIAL.calls, ListedAs(id)) {
      assert Members(INITIAL.calls, ListedAs(id)) == {};
    }
  }

  /**
    Token accounting: in every reachable state each semaphore's channel holds exactly one
    token per acquire that took from it and has not released, and never more than its limit;
    so a release always finds its token.
   */
  lemma TokenAccounting(actions: seq<Action>)
    ensures var g := Run(INITIAL, actions);
      && (forall i: nat :: i < |g.sems| ==>
            g.sems[i].tokens == |set c | c in g.calls && OwnsToken(g.calls[c]) && g.calls[c].pc.sem == i|
            && g.sems[i].tokens <= g.sems[i].limit)
      && (forall c :: c in g.calls && g.calls[c].pc.Holding? ==> Enabled(g, ReturnToken(c)))
  {
    var g := Run(INITIAL, actions);
    InitialInv();
    RunKeeps(INITIAL, actions);
    forall i: nat | i < |g.sems|
      ensures g.sems[i].tokens == |set c | c in g.calls && OwnsToken(g.calls[c]) && g.calls[c].pc.sem == i|
      ensures g.sems[i].tokens <= g.sems[i].limit
    {
      assert SemExact(g, i);
      assert Members(g.calls, TokenOn(i)) == set c | c in g.calls && OwnsToken(g.calls[c]) && g.calls[c].pc.sem == i;
    }
    forall c | c in g.calls && g.calls[c].pc.Holding? ensures Enabled(g, ReturnToken(c)) {
      var i := g.calls[c].pc.sem;
      assert SemExact(g, i);
      assert c in Members(g.calls, TokenOn(i));
    }
  }

  lemma {:induction false} TotalIsBelow(g: Group, k: nat)
    requires SemsExact(g) && k <= |g.sems|
    ensures TotalTokens(g.sems, k) == Count(g.calls, TokenBelow(k))
  {
    if k == 0 {
      assert Members(g.calls, TokenBelow(0)) == {};
    } else {
      TotalIsBelow(g, k - 1);
      assert SemExact(g, k - 1);
      BelowSplits(g.calls, k);
    }
  }

  lemma BelowSplits(calls: map<CallId, Call>, k: nat)
    requires k > 0
    ensures Count(calls, TokenBelow(k)) == Count(calls, TokenBelow(k - 1)) + Count(calls, TokenOn(k - 1))
  {
    var whole := Members(calls, TokenBelow(k));
    var left, right := Members(calls, TokenBelow(k - 1)), Members(calls, TokenOn(k - 1));
    forall c ensures c in whole <==> c in left + right {
    }
    assert whole == left + right;
    CountSplit(calls, TokenBelow(k), TokenBelow(k - 1), TokenOn(k - 1));
  }

  lemma TotalIsSlotted(g: Group)
    requires Inv(g)
    ensures TotalTokens(g.sems, |g.sems|) == Count(g.calls, Slotted)
  {
    TotalIsBelow(g, |g.sems|);
    assert Members(g.calls, TokenBelow(|g.sems|)) == Members(g.calls, Slotted);
  }

  lemma {:induction false} TotalSplitsAtCurrent(g: Group, k: nat)
    requires SemsExact(g) && k <= |g.sems|
    ensures TotalTokens(g.sems, k) == RetiredTokens(g.sems, k)
      + if g.current.Some? && g.current.value < k then g.sems[g.current.value].tokens else 0
  {
    if k > 0 {
      TotalSplitsAtCurrent(g, k - 1);
      assert SemExact(g, k - 1);
    }
  }

  /**
    The group's running count is at most its effective limit plus what still runs on
    semaphores that a swap retired; with nobody left there it is within the limit.
   */
  lemma RunningWithinLimit(actions: seq<Action>)
    ensures var g := Run(INITIAL, actions);
      && g.current.Some? ==>
      && g.current.value < |g.sems|
      && var declared := g.sems[g.current.value].declared;
         Count(g.calls, Slotted) <= Effective(g.override, declared) + RetiredTokens(g.sems, |g.sems|)
  {
    var g := Run(INITIAL, actions);
    InitialInv();
    RunKeeps(INITIAL, actions);
    TotalIsSlotted(g);
    TotalSplitsAtCurrent(g, |g.sems|);
    if g.current.Some? {
      assert SemExact(g, g.current.value);
    }
  }

  /**
    A swap does not wait for old holders, so the running count can exceed both limits:
    lowering 2 to 1 while two runs hold their slots admits a third.
   */
  lemma SwapOvershoots()
    ensures var g := Run(INITIAL, [Configure(Some(2)), Acquire(0, "a", false), Acquire(1, "b", false),
                                   SetOverride(1), Acquire(2, "c", false)]);
      g.override == Some(1) && g.calls.Keys == {0, 1, 2} && forall c :: c in g.calls ==> g.calls[c].pc.Holding?
  {
    RunFive(INITIAL, Configure(Some(2)), Acquire(0, "a", false), Acquire(1, "b", false),
            SetOverride(1), Acquire(2, "c", false));
    TwoHold();
    var g := Step(Step(Step(INITIAL, Configure(Some(2))), Acquire(0, "a", false)), Acquire(1, "b", false));
    SwapThenAcquire(g, 1, 2, "c");
  }

  lemma TwoHold()
    ensures var g := Step(Step(Step(INITIAL, Configure(Some(2))), Acquire(0, "a", false)), Acquire(1, "b", false));
      && g.calls.Keys == {0, 1} && g.calls[0].pc == g.calls[1].pc == Holding(0)
      && g.sems == [Sem(2, 2, false, 2, false, 0)] && g.current == Some(0)
  {
    var g1 := Step(INITIAL, Configure(Some(2)));
    assert g1.sems == [NewSem(2, 2, false)];
  }

  /** Overriding a full semaphore's limit opens a new one, which the next acquire takes at once. */
  lemma SwapThenAcquire(g: Group, limit: int, c: CallId, run: string)
    requires g.current.Some? && g.current.value < |g.sems| && 1 <= limit != g.sems[g.current.value].limit
    requires c !in g.calls
    ensures var g' := Step(Step(g, SetOverride(limit)), Acquire(c, run, false));
      && g'.override == Some(limit) && g'.calls == g.calls[c := Call(run, false, false, 0, Holding(|g.sems|))]
      && g'.queue == WithHolder(g.queue, run) && g'.views == g.views
  {
    var swapped := Step(g, SetOverride(limit));
    assert swapped.current == Some(|g.sems|);
    assert swapped.sems[|g.sems|] == NewSem(g.sems[g.current.value].declared, limit, true);
  }

  lemma RunFive(g: Group, a: Action, b: Action, c: Action, d: Action, e: Action)
    ensures Run(g, [a, b, c, d, e]) == Step(Step(Step(Step(Step(g, a), b), c), d), e)
  {
    assert [a, b, c, d, e][1..] == [b, c, d, e] && [b, c, d, e][1..] == [c, d, e];
    assert [c, d, e][1..] == [d, e] && [d, e][1..] == [e] && [e][1..] == [];
    var g3 := Step(Step(Step(g, a), b), c);
    assert Run(g3, [d, e]) == Step(Step(g3, d), e) by {
      assert Run(Step(g3, d), [e]) == Step(Step(g3, d), e);
    }
    assert Run(Step(g, a), [b, c, d, e]) == Run(Step(Step(g, a), b), [c, d, e]);
  }

  // ---------------------------------------------------------------- swaps and waiters

  /** A step keeps the current semaphore, drops it, or makes a new one current. */
  lemma CurrentMoves(g: Group, a: Action)
    ensures var g' := Step(g, a);
      |g.sems| <= |g'.sems| && (g'.current == g.current || g'.current == None || g'.current == Some(|g.sems|))
  {
  }

  /** Retired channels close once: only the current semaphore is ever closed, and none reopens. */
  lemma RetiresOnlyCurrent(g: Group, a: Action)
    requires Inv(g)
    ensures |g.sems| <= |Step(g, a).sems|
    ensures forall i: nat :: i < |g.sems| ==>
      var before, after := g.sems[i].retired, Step(g, a).sems[i].retired;
      && (before ==> after)
      && (!before && after ==> g.current == Some(i) && Step(g, a).current != Some(i))
  {
    StepKeeps(g, a);
    CurrentMoves(g, a);
    var g' := Step(g, a);
    forall i: nat | i < |g.sems|
      ensures g.sems[i].retired <==> g.current != Some(i)
      ensures g'.sems[i].retired <==> g'.current != Some(i)
    {
      assert SemExact(g, i);
      assert SemExact(g', i);
    }
  }

  /**
    No stranded waiter: a blocked call whose semaphore was replaced can take its re-bind
    step; one bound to the current semaphore is stuck exactly while it is full, which means
    that as many other calls own a slot of it as the effective limit allows.
   */
  lemma NoStrandedWaiter(actions: seq<Action>, c: CallId)
    ensures var g := Run(INITIAL, actions);
      c in g.calls && g.calls[c].pc.Queued? && g.calls[c].armed ==>
        && var i := g.calls[c].pc.sem;
        && i < |g.sems|
        && (g.current != Some(i) ==> Enabled(g, SelectRetired(c)))
        && (g.current == Some(i) ==>
              && !Enabled(g, SelectRetired(c))
              && (!Enabled(g, SelectTake(c)) <==>
                    |set d | d in g.calls && d != c && OwnsToken(g.calls[d]) && g.calls[d].pc.sem == i|
                    == Effective(g.override, g.sems[i].declared)))
  {
    var g := Run(INITIAL, actions);
    InitialInv();
    RunKeeps(INITIAL, actions);
    if c in g.calls && g.calls[c].pc.Queued? && g.calls[c].armed {
      var i := g.calls[c].pc.sem;
      assert SemExact(g, i);
      assert Members(g.calls, TokenOn(i))
          == set d | d in g.calls && d != c && OwnsToken(g.calls[d]) && g.calls[d].pc.sem == i;
    }
  }

  /** A limit change retires the current semaphore for an empty one and touches no call. */
  lemma SwapInstalls(g: Group, limit: int)
    requires Inv(g) && limit >= 1 && g.current.Some? && g.sems[g.current.value].limit != limit
    ensures var g' := Step(g, SetOverride(limit));
      && g'.calls == g.calls && g'.current == Some(|g.sems|)
      && g'.sems == Retire(g.sems, g.current) + [NewSem(g.sems[g.current.value].declared, limit, true)]
  {
    assert SemExact(g, g.current.value);
  }

  /** A limit change admits a queued run as soon as it re-binds: nobody has to release first. */
  lemma SwapAdmitsWaiter(g: Group, c: CallId, limit: int)
    requires Inv(g) && limit >= 1 && g.current.Some? && g.sems[g.current.value].limit != limit
    requires c in g.calls && g.calls[c].pc == Queued(g.current.value) && g.calls[c].armed
    ensures var g' := Step(Step(Step(Step(g, SetOverride(limit)), SelectRetired(c)), Disarm(c)), Rebind(c));
      && Lookup(g'.calls, c) == Some(g.calls[c].(armed := false, pc := Holding(|g.sems|)))
      && g'.current == Some(|g.sems|)
  {
    SwapInstalls(g, limit);
    var g1 := Step(g, SetOverride(limit));
    var g2 := Step(g1, SelectRetired(c));
    assert g2.sems == g1.sems && g2.calls[c].pc == Rebinding(g.current.value);
    var g3 := Step(g2, Disarm(c));
    assert g3.sems[|g.sems|] == g1.sems[|g.sems|];
    assert g3.calls[c] == g.calls[c].(armed := false, pc := Rebinding(g.current.value));
    assert HasRoom(g3.sems, |g.sems|);
  }

  // ---------------------------------------------------------------- the advisory lists

  lemma SlottedSplit(calls: map<CallId, Call>)
    ensures Count(calls, Slotted) == Count(calls, Unregistered) + Count(calls, Held)
  {
    CountSplit(calls, Slotted, Unregistered, Held);
  }

  lemma HeldSplit(calls: map<CallId, Call>)
    ensures Count(calls, Held) == Count(calls, Named) + Count(calls, Anonymous)
  {
    CountSplit(calls, Held, Named, Anonymous);
  }

  lemma ListedSplit(calls: map<CallId, Call>)
    ensures Count(calls, Listed) == Count(calls, Named) + Count(calls, Undropped)
  {
    CountSplit(calls, Listed, Named, Undropped);
  }

  lemma SlottedBreakdown(calls: map<CallId, Call>)
    ensures Count(calls, Slotted) + Count(calls, Undropped)
         == Count(calls, Listed) + Count(calls, Unregistered) + Count(calls, Anonymous)
  {
    SlottedSplit(calls);
    HeldSplit(calls);
    ListedSplit(calls);
  }

  /**
    The advisory holder list agrees with the real tokens up to steps in flight: tokens over
    all semaphores are the listed holders, plus takers not yet registered and holders without
    a run id, minus named returners not yet dropped.
   */
  lemma AdvisoryAgreement(actions: seq<Action>)
    ensures var g := Run(INITIAL, actions);
      TotalTokens(g.sems, |g.sems|) + Count(g.calls, Undropped)
      == |g.queue.holders| + Count(g.calls, Unregistered) + Count(g.calls, Anonymous)
  {
    var g := Run(INITIAL, actions);
    InitialInv();
    RunKeeps(INITIAL, actions);
    TotalIsSlotted(g);
    SlottedBreakdown(g.calls);
  }

  /** Each run id is listed as often as it has calls holding or returning a slot. */
  lemma ListedRuns(actions: seq<Action>, id: string)
    ensures var g := Run(INITIAL, actions);
      multiset(g.queue.holders)[id]
      == |set c | c in g.calls && id != "" && g.calls[c].run == id
            && (g.calls[c].pc.Holding? || g.calls[c].pc.Returning?)|
  {
    var g := Run(INITIAL, actions);
    InitialInv();
    RunKeeps(INITIAL, actions);
    assert Members(g.calls, ListedAs(id))
        == set c | c in g.calls && id != "" && g.calls[c].run == id
             && (g.calls[c].pc.Holding? || g.calls[c].pc.Returning?);
  }

  lemma {:induction false} PositionAt(s: seq<CallId>, k: nat)
    requires NoDup(s) && k < |s|
    ensures Position(s, s[k]) == k + 1
  {
    if k > 0 {
      PositionAt(s[1..], k - 1);
    }
  }

  lemma {:induction false} PositionAppend(s: seq<CallId>, c: CallId, x: CallId)
    requires x in s
    ensures Position(s + [c], x) == Position(s, x)
  {
    if s[0] != x {
      assert (s + [c])[1..] == s[1..] + [c];
      PositionAppend(s[1..], c, x);
    }
  }

  /**
    The waiting line is exactly the named calls in line, in the order they registered, and
    the position a waiter is told is its place 1..n in it.
   */
  lemma WaitingLine(actions: seq<Action>)
    ensures var g := Run(INITIAL, actions); var line := g.queue.waiting;
      && (forall c :: c in line <==> c in g.calls && g.calls[c].run != "" && InLine(g.calls[c]))
      && (forall i, j :: 0 <= i < j < |line| ==> g.calls[line[i]].ticket < g.calls[line[j]].ticket)
      && (forall k :: 0 <= k < |line| ==> ViewOf(g.queue, line[k]).position == k + 1)
  {
    var g := Run(INITIAL, actions);
    InitialInv();
    RunKeeps(INITIAL, actions);
    LineNoDup(g);
    forall k | 0 <= k < |g.queue.waiting| ensures ViewOf(g.queue, g.queue.waiting[k]).position == k + 1 {
      PositionAt(g.queue.waiting, k);
    }
  }
}
