/** What the inbox promises about events, over every run of InboxModel. */
module InboxLaws {
  import opened Basics
  import opened InboxModel

  function Received(rs: seq<Receipt>): seq<Event> {
    seq(|rs|, i requires 0 <= i < |rs| => rs[i].event)
  }

  function Ended(fs: seq<Finish>): seq<Event> {
    seq(|fs|, i requires 0 <= i < |fs| => fs[i].event)
  }

  function Out(c: Core): seq<Event> {
    if c.out.Some? then [c.out.value] else []
  }

  // ---------------------------------------------------------------- what every step keeps

  /** First in, first out: what was handed out, then what is queued, is what was pushed. */
  predicate Fifo(s: State) {
    && (forall i :: 0 <= i < |s.pushed| ==> s.pushed[i].id == i)
    && s.pushed == Received(s.received) + s.core.buf
  }

  /** Each event handed out is finished, in the checked-out slot, or was overwritten there. */
  predicate Accounted(s: State) {
    multiset(Received(s.received)) == multiset(Ended(s.finished)) + multiset(Out(s.core)) + multiset(s.lost)
  }

  predicate Calls(s: State) {
    s.core.parked == |s.calls| && forall c :: c in s.calls ==> s.calls[c] != ""
  }

  /** The checked-out event is the latest one handed out, and the bound instance received it. */
  predicate Slot(s: State) {
    s.core.out.Some? ==>
      s.received != [] && s.received[|s.received| - 1] == Receipt(s.core.out.value, s.core.instance)
  }

  /** An event ends as processed only for the instance that received it. */
  predicate Fates(s: State) {
    forall f :: f in s.finished && f.fate.Processed? ==> Receipt(f.event, f.fate.instance) in s.received
  }

  /** Each finished event is owed or has had one settle call, and handles show its fate. */
  predicate Settling(s: State) {
    && multiset(Ended(s.finished)) == multiset(Ended(s.owed)) + multiset(Ended(s.made))
    && (forall f :: f in s.owed ==> f in s.finished)
    && (forall f :: f in s.made ==> f in s.finished)
    && (forall f :: f in s.made && f.event.kind.Delivery? ==>
          f.event in s.settled && s.settled[f.event] == f.fate.Processed?)
    && (forall e :: e in s.settled ==> e.kind.Delivery? && e in Ended(s.made))
  }

  predicate Inv(s: State) {
    Fifo(s) && Accounted(s) && Calls(s) && Slot(s) && Fates(s) && Settling(s)
  }

  // ---------------------------------------------------------------- counting lemmas

  lemma ReceivedMore(rs: seq<Receipt>, r: Receipt)
    ensures Received(rs + [r]) == Received(rs) + [r.event]
  {
  }

  lemma EndedMore(fs: seq<Finish>, f: Finish)
    ensures Ended(fs + [f]) == Ended(fs) + [f.event]
  {
  }

  lemma {:induction false} EndedMembers(fs: seq<Finish>, f: Finish)
    requires f in fs
    ensures f.event in Ended(fs)
  {
    var i :| 0 <= i < |fs| && fs[i] == f;
    assert Ended(fs)[i] == f.event;
  }

  lemma RemovedAt(fs: seq<Finish>, k: nat)
    requires k < |fs|
    ensures multiset(Ended(fs)) == multiset(Ended(fs[..k] + fs[k + 1..])) + multiset{fs[k].event}
  {
    var es := Ended(fs);
    assert es == es[..k] + [es[k]] + es[k + 1..];
    assert Ended(fs[..k] + fs[k + 1..]) == es[..k] + es[k + 1..];
  }

  /** Ids number the pushes, so no event is handed out twice. */
  lemma OnceReceived(s: State, e: Event)
    requires Fifo(s)
    ensures multiset(Received(s.received))[e] <= 1
  {
    var es := Received(s.received);
    forall i | 0 <= i < |es| ensures es[i].id == i {
      assert es[i] == s.pushed[i];
    }
    OnceNumbered(es, e);
  }

  lemma {:induction false} OnceNumbered(es: seq<Event>, e: Event)
    requires forall i :: 0 <= i < |es| ==> es[i].id == i
    ensures multiset(es)[e] <= 1
    ensures e in es ==> e.id < |es|
  {
    if es != [] {
      var n := |es| - 1;
      OnceNumbered(es[..n], e);
      assert es == es[..n] + [es[n]];
    }
  }

  // ---------------------------------------------------------------- steps

  lemma PushKeeps(s: State, kind: Kind)
    requires Inv(s)
    ensures Inv(PushEvent(s, kind))
  {
    var s' := PushEvent(s, kind);
    assert s'.pushed == Received(s.received) + s'.core.buf;
  }

  /** The checked-out event is finished: by the next Next of its receiver, or by bind and unbind. */
  lemma FinishKeeps(s: State, fate: Fate)
    requires Inv(s) && (fate.Processed? ==> fate.instance == s.core.instance)
    ensures Inv(Finished(s, fate)) && Finished(s, fate).core.out.None?
  {
    if s.core.out.Some? {
      FinishSettles(s, fate);
      FinishAccounts(s, fate);
      assert s.received[|s.received| - 1] in s.received;
    }
  }

  lemma FinishAccounts(s: State, fate: Fate)
    requires Accounted(s) && s.core.out.Some?
    ensures Accounted(Finished(s, fate))
  {
    EndedMore(s.finished, Finish(s.core.out.value, fate));
  }

  lemma FinishSettles(s: State, fate: Fate)
    requires Settling(s) && s.core.out.Some?
    ensures Settling(Finished(s, fate))
  {
    var f := Finish(s.core.out.value, fate);
    EndedMore(s.finished, f);
    EndedMore(s.owed, f);
  }

  lemma BindKeeps(s: State, instance: string)
    requires Inv(s) && s.core.out.None?
    ensures Inv(Rebound(s, instance))
  {
  }

  lemma CountKeeps(s: State, call: nat, instance: string)
    requires Inv(s) && s.core.out.None? && call !in s.calls && instance != ""
    ensures Inv(Counted(s, call, instance))
  {
    NewCall(s.calls, call, instance);
    assert Fifo(Counted(s, call, instance));
  }

  lemma LeaveKeeps(s: State, call: nat)
    requires Inv(s) && call in s.calls && s.core.parked > 0
    ensures Inv(LeaveNext(s, call))
  {
    LeaveCalls(s, call);
  }

  lemma PopInOrder(s: State, call: nat)
    requires Fifo(s) && Enabled(s, Pop(call))
    ensures Fifo(PopEvent(s, call))
  {
    var s', e := PopEvent(s, call), s.core.buf[0];
    ReceivedMore(s.received, Receipt(e, s.calls[call]));
    assert s.core.buf == [e] + s'.core.buf;
  }

  lemma PopAccounts(s: State, call: nat)
    requires Accounted(s) && Enabled(s, Pop(call))
    ensures Accounted(PopEvent(s, call))
  {
    var s', e := PopEvent(s, call), s.core.buf[0];
    ReceivedMore(s.received, Receipt(e, s.calls[call]));
    assert multiset(Received(s'.received)) == multiset(Received(s.received)) + multiset{e};
    assert multiset(s'.lost) == multiset(s.lost) + multiset(Out(s.core));
  }

  lemma PopKeeps(s: State, call: nat)
    requires Inv(s) && Enabled(s, Pop(call))
    ensures Inv(PopEvent(s, call))
  {
    PopInOrder(s, call);
    PopAccounts(s, call);
    LeaveCalls(s, call);
  }

  lemma LeaveCalls(s: State, call: nat)
    requires Calls(s) && call in s.calls
    ensures |s.calls - {call}| == |s.calls| - 1
  {
    assert (s.calls - {call}).Keys == s.calls.Keys - {call};
    assert |s.calls| == |s.calls.Keys| && |s.calls - {call}| == |(s.calls - {call}).Keys|;
  }

  /** A handle that is owed a settle call has had none. */
  lemma OwedUnsettled(s: State, k: nat)
    requires Inv(s) && k < |s.owed|
    ensures s.owed[k].event !in Ended(s.made) && s.owed[k].event !in s.settled
  {
    var e := s.owed[k].event;
    OnceReceived(s, e);
    assert Ended(s.owed)[k] == e;
    assert multiset(Ended(s.owed))[e] >= 1;
    assert multiset(Ended(s.made))[e] == 0;
  }

  lemma SettleKeeps(s: State, k: nat)
    requires Inv(s) && k < |s.owed|
    ensures Inv(SettleOwed(s, k))
  {
    var f, s' := s.owed[k], SettleOwed(s, k);
    OwedUnsettled(s, k);
    RemovedAt(s.owed, k);
    EndedMore(s.made, f);
    forall g | g in s'.made && g.event.kind.Delivery?
      ensures g.event in s'.settled && s'.settled[g.event] == g.fate.Processed?
    {
      if g in s.made {
        EndedMembers(s.made, g);
      }
    }
    assert f.event in Ended(s'.made) by {
      EndedMembers(s'.made, f);
    }
    assert forall e :: e in Ended(s.made) ==> e in Ended(s'.made);
  }

  lemma StepKeeps(s: State, a: Action)
    requires Inv(s) && Enabled(s, a)
    ensures Inv(Step(s, a))
  {
    match a {
      case Push(kind) => PushKeeps(s, kind);
      case PushTick => PushKeeps(s, Tick);
      case Bind(instance) =>
        FinishKeeps(s, Abandoned);
        BindKeeps(Finished(s, Abandoned), instance);
      case Begin(call, instance) =>
        FinishKeeps(s, Processed(instance));
        CountKeeps(Finished(s, Processed(instance)), call, instance);
      case Pop(call) => PopKeeps(s, call);
      case GiveUp(call) => LeaveKeeps(s, call);
      case Stale(call) => LeaveKeeps(s, call);
      case Settle(k) => SettleKeeps(s, k);
      case CheckTick =>
    }
  }

  lemma NewCall(calls: map<nat, string>, call: nat, instance: string)
    requires call !in calls
    ensures |calls[call := instance]| == |calls| + 1
  {
    assert calls[call := instance].Keys == calls.Keys + {call};
    assert |calls| == |calls.Keys| && |calls[call := instance]| == |calls[call := instance].Keys|;
  }

  lemma {:induction false} RunKeeps(s: State, actions: seq<Action>)
    requires Inv(s) && IsRun(s, actions)
    ensures Inv(Run(s, actions))
    decreases |actions|
  {
    if actions != [] {
      StepKeeps(s, actions[0]);
      RunKeeps(Step(s, actions[0]), actions[1..]);
    }
  }

  // ---------------------------------------------------------------- the laws

  /** In how many places an event is: queued, checked out, finished, overwritten. */
  function Places(s: State, e: Event): nat {
    multiset(s.core.buf)[e] + multiset(Out(s.core))[e] + multiset(Ended(s.finished))[e] + multiset(s.lost)[e]
  }

  /** Over every interleaving: events leave in push order, and each is in exactly one place. */
  lemma Conservation(actions: seq<Action>, e: Event)
    requires IsRun(INIT, actions)
    ensures var s := Run(INIT, actions);
      && s.pushed == Received(s.received) + s.core.buf
      && Places(s, e) == if e in s.pushed then 1 else 0
  {
    RunKeeps(INIT, actions);
    var s := Run(INIT, actions);
    OnceNumbered(s.pushed, e);
    assert multiset(s.pushed) == multiset(Received(s.received)) + multiset(s.core.buf);
    assert e in s.pushed <==> e in multiset(s.pushed);
  }

  lemma SettledFate(s: State, e: Event)
    requires Inv(s) && e in s.settled
    ensures s.settled[e] ==>
      exists instance :: Finish(e, Processed(instance)) in s.finished && Receipt(e, instance) in s.received
    ensures !s.settled[e] ==> Finish(e, Abandoned) in s.finished
  {
    var k :| 0 <= k < |s.made| && Ended(s.made)[k] == e;
    var f := s.made[k];
    assert f in s.made && f in s.finished;
    assert f == Finish(e, f.fate);
    if f.fate.Processed? {
      assert Finish(e, Processed(f.fate.instance)) in s.finished;
    }
  }

  /** Each delivery settles at most once, with the fate it met. */
  lemma SettlesOnce(actions: seq<Action>, e: Event)
    requires IsRun(INIT, actions)
    ensures var s := Run(INIT, actions);
      && multiset(Ended(s.owed))[e] + multiset(Ended(s.made))[e] == multiset(Ended(s.finished))[e] <= 1
      && (e in s.settled <==> e.kind.Delivery? && e in Ended(s.made))
      && (e in s.settled && s.settled[e] ==>
        exists instance :: Finish(e, Processed(instance)) in s.finished && Receipt(e, instance) in s.received)
      && (e in s.settled && !s.settled[e] ==> Finish(e, Abandoned) in s.finished)
  {
    RunKeeps(INIT, actions);
    var s := Run(INIT, actions);
    OnceReceived(s, e);
    if e in s.settled {
      SettledFate(s, e);
    } else if e in Ended(s.made) {
      var k :| 0 <= k < |s.made| && Ended(s.made)[k] == e;
      assert s.made[k] in s.made;
    }
  }

  /** An event is finished only from the slot: processed by its receiver's next Next, abandoned by bind. */
  lemma FinishedBy(s: State, a: Action, f: Finish)
    requires Inv(s) && Enabled(s, a) && f in Step(s, a).finished && f !in s.finished
    ensures s.core.out == Some(f.event) && Receipt(f.event, s.core.instance) in s.received
    ensures f.fate.Processed? ==> a.Begin? && a.instance == s.core.instance == f.fate.instance
    ensures f.fate.Abandoned? ==> a.Bind?
  {
    assert s.core.out.Some? ==> s.received[|s.received| - 1] in s.received;
  }

  // ---------------------------------------------------------------- overlapping Next calls

  predicate Alone(s: State, instance: string) {
    forall c :: c in s.calls ==> s.calls[c] != instance
  }

  /** Every Next begins when no other Next of the same instance is in flight. */
  ghost predicate Serial(s: State, actions: seq<Action>)
    requires IsRun(s, actions)
    decreases |actions|
  {
    actions != [] ==>
      && (actions[0].Begin? ==> Alone(s, actions[0].instance))
      && Serial(Step(s, actions[0]), actions[1..])
  }

  /** One Next per instance, and none of the bound instance while an event is checked out. */
  predicate Safe(s: State) {
    && (forall c, d :: c in s.calls && d in s.calls && s.calls[c] == s.calls[d] ==> c == d)
    && (s.core.out.Some? ==> Alone(s, s.core.instance))
  }

  lemma SafeStep(s: State, a: Action)
    requires Inv(s) && Safe(s) && Enabled(s, a) && (a.Begin? ==> Alone(s, a.instance))
    ensures Safe(Step(s, a)) && Step(s, a).lost == s.lost
  {
  }

  lemma {:induction false} SafeRun(s: State, actions: seq<Action>)
    requires Inv(s) && Safe(s) && IsRun(s, actions) && Serial(s, actions)
    ensures Safe(Run(s, actions)) && Run(s, actions).lost == s.lost
    decreases |actions|
  {
    if actions != [] {
      SafeStep(s, actions[0]);
      StepKeeps(s, actions[0]);
      SafeRun(Step(s, actions[0]), actions[1..]);
    }
  }

  lemma Prepend(s: State, a: Action, rest: seq<Action>)
    requires Enabled(s, a) && !a.Begin? && IsRun(Step(s, a), rest) && Serial(Step(s, a), rest)
    ensures IsRun(s, [a] + rest) && Serial(s, [a] + rest) && Run(s, [a] + rest) == Run(Step(s, a), rest)
  {
    assert ([a] + rest)[1..] == rest;
  }

  lemma OverwriteRun(s: State, c: nat) returns (actions: seq<Action>)
    requires Inv(s) && s.core.out.Some? && c in s.calls && s.calls[c] == s.core.instance
    ensures IsRun(s, actions) && Serial(s, actions) && Run(s, actions).lost == s.lost + [s.core.out.value]
  {
    var s1 := PushEvent(s, Start);
    assert s1 == Step(s, Push(Start)) && Enabled(s1, Pop(c));
    Prepend(s1, Pop(c), []);
    Prepend(s, Push(Start), [Pop(c)] + []);
    actions := [Push(Start)] + ([Pop(c)] + []);
  }

  /** Two calls of one instance in flight: bound again, with two events queued, the first is overwritten. */
  lemma OverlapRun(s: State, c: nat, d: nat) returns (actions: seq<Action>)
    requires Inv(s) && c != d && c in s.calls && d in s.calls && s.calls[c] == s.calls[d]
    ensures IsRun(s, actions) && Serial(s, actions) && Run(s, actions).lost != s.lost
  {
    var bind := Bind(s.calls[c]);
    var s1 := Step(s, bind);
    StepKeeps(s, bind);
    actions := BoundOverlapRun(s1, c, d);
    Prepend(s, bind, actions);
    actions := [bind] + actions;
  }

  lemma BoundOverlapRun(s: State, c: nat, d: nat) returns (actions: seq<Action>)
    requires Inv(s) && s.core.out.None? && c != d && c in s.calls && d in s.calls
    requires s.calls[c] == s.calls[d] == s.core.instance
    ensures IsRun(s, actions) && Serial(s, actions) && Run(s, actions).lost != s.lost
  {
    var s1 := Step(s, Push(Start));
    StepKeeps(s, Push(Start));
    var s2 := PopEvent(s1, c);
    PopKeeps(s1, c);
    var rest := OverwriteRun(s2, d);
    Prepend(s1, Pop(c), rest);
    Prepend(s, Push(Start), [Pop(c)] + rest);
    actions := [Push(Start)] + ([Pop(c)] + rest);
  }

  /**
    No event is ever overwritten in the checked-out slot, whatever serial calls follow, exactly
    when the state is safe: from any other state some run loses an event.
   */
  lemma OverlapLosesExactly(s: State)
    requires Inv(s)
    ensures Safe(s) <==> forall actions :: IsRun(s, actions) && Serial(s, actions) ==> Run(s, actions).lost == s.lost
  {
    if Safe(s) {
      forall actions | IsRun(s, actions) && Serial(s, actions) ensures Run(s, actions).lost == s.lost {
        SafeRun(s, actions);
      }
    } else if c, d :| c in s.calls && d in s.calls && s.calls[c] == s.calls[d] && c != d {
      var actions := OverlapRun(s, c, d);
    } else {
      var c :| c in s.calls && s.calls[c] == s.core.instance;
      var actions := OverwriteRun(s, c);
    }
  }

  /** With serial calls, events are finished in push order and nothing but the last is unfinished. */
  lemma SerialConservation(actions: seq<Action>)
    requires IsRun(INIT, actions) && Serial(INIT, actions)
    ensures var s := Run(INIT, actions);
      s.lost == [] && s.pushed == Ended(s.finished) + Out(s.core) + s.core.buf
  {
    SafeRun(INIT, actions);
    RunKeeps(INIT, actions);
    FinishedInOrder(INIT, actions);
  }

  predicate InOrder(s: State) {
    Received(s.received) == Ended(s.finished) + Out(s.core)
  }

  lemma InOrderStep(s: State, a: Action)
    requires Inv(s) && Safe(s) && InOrder(s) && Enabled(s, a)
    ensures InOrder(Step(s, a))
  {
    var s' := Step(s, a);
    if a.Pop? {
      ReceivedMore(s.received, Receipt(s.core.buf[0], s.calls[a.call]));
    } else if s'.finished != s.finished {
      EndedMore(s.finished, s'.finished[|s.finished|]);
    }
  }

  lemma {:induction false} FinishedInOrder(s: State, actions: seq<Action>)
    requires Inv(s) && Safe(s) && InOrder(s) && IsRun(s, actions) && Serial(s, actions)
    ensures InOrder(Run(s, actions))
    decreases |actions|
  {
    if actions != [] {
      SafeStep(s, actions[0]);
      StepKeeps(s, actions[0]);
      InOrderStep(s, actions[0]);
      FinishedInOrder(Step(s, actions[0]), actions[1..]);
    }
  }

  /** An overwritten event is never finished: its handle never settles. */
  lemma {:induction false} LostNeverSettles(s: State, actions: seq<Action>, e: Event)
    requires Inv(s) && IsRun(s, actions) && e in s.lost
    ensures e in Run(s, actions).lost && e !in Run(s, actions).settled
    decreases |actions|
  {
    if actions == [] {
      OnceReceived(s, e);
      assert multiset(s.lost)[e] >= 1;
      assert multiset(Ended(s.finished))[e] == 0;
      assert multiset(Ended(s.made))[e] == 0;
    } else {
      StepKeeps(s, actions[0]);
      assert e in Step(s, actions[0]).lost;
      LostNeverSettles(Step(s, actions[0]), actions[1..], e);
    }
  }

  // ---------------------------------------------------------------- ticks

  function Ticks(buf: seq<Event>): nat {
    if buf == [] then 0 else (if buf[0].kind.Tick? then 1 else 0) + Ticks(buf[1..])
  }

  lemma {:induction false} TicksMore(buf: seq<Event>, e: Event)
    ensures Ticks(buf + [e]) == Ticks(buf) + if e.kind.Tick? then 1 else 0
  {
    if buf != [] {
      assert (buf + [e])[1..] == buf[1..] + [e];
      TicksMore(buf[1..], e);
    } else {
      assert buf + [e] == [e];
    }
  }

  /** A tick is checked for only when no other check is waiting to push. */
  ghost predicate TicksApart(s: State, actions: seq<Action>)
    requires IsRun(s, actions)
    decreases |actions|
  {
    actions != [] ==> (actions[0].CheckTick? ==> s.ticking == 0) && TicksApart(Step(s, actions[0]), actions[1..])
  }

  predicate Coalesced(s: State) {
    Ticks(s.core.buf) + s.ticking <= 1 && (s.core.tickQueued <==> Ticks(s.core.buf) == 1)
  }

  lemma CoalescedStep(s: State, a: Action)
    requires Coalesced(s) && Enabled(s, a) && (a.CheckTick? ==> s.ticking == 0)
    ensures Coalesced(Step(s, a))
  {
    match a {
      case Push(kind) => TicksMore(s.core.buf, Event(|s.pushed|, kind));
      case PushTick => TicksMore(s.core.buf, Event(|s.pushed|, Tick));
      case _ =>
    }
  }

  /** With non-overlapping PushTick calls at most one tick is queued, and the flag says whether. */
  lemma {:induction false} TicksCoalesce(s: State, actions: seq<Action>)
    requires Coalesced(s) && IsRun(s, actions) && TicksApart(s, actions)
    ensures Coalesced(Run(s, actions))
    decreases |actions|
  {
    if actions != [] {
      CoalescedStep(s, actions[0]);
      TicksCoalesce(Step(s, actions[0]), actions[1..]);
    }
  }

  // ---------------------------------------------------------------- the loss is reachable

  lemma RunFirst(s: State, a: Action, rest: seq<Action>)
    requires Enabled(s, a) && IsRun(Step(s, a), rest)
    ensures IsRun(s, [a] + rest) && Run(s, [a] + rest) == Run(Step(s, a), rest)
  {
    assert ([a] + rest)[1..] == rest;
  }

  /** Two deliveries handed to two overlapping calls of one instance: the first is overwritten. */
  lemma OverlapLosesDelivery(instance: string)
    requires instance != ""
    ensures var first: seq<Action> := [Bind(instance), Begin(0, instance), Begin(1, instance)];
      var actions := first + [Push(Delivery), Push(Delivery), Pop(0), Pop(1)];
      IsRun(INIT, actions) && Run(INIT, actions).lost == [Event(0, Delivery)]
  {
    var s1 := Step(INIT, Bind(instance));
    var s2 := Step(s1, Begin(0, instance));
    var s3 := Step(s2, Begin(1, instance));
    TwoCallsLose(s3, instance);
    var rest := [Push(Delivery), Push(Delivery), Pop(0), Pop(1)];
    RunFirst(s2, Begin(1, instance), rest);
    RunFirst(s1, Begin(0, instance), [Begin(1, instance)] + rest);
    RunFirst(INIT, Bind(instance), [Begin(0, instance)] + ([Begin(1, instance)] + rest));
    assert [Bind(instance), Begin(0, instance), Begin(1, instance)] + rest
        == [Bind(instance)] + ([Begin(0, instance)] + ([Begin(1, instance)] + rest));
  }

  lemma TwoCallsLose(s: State, instance: string)
    requires s.calls == map[0 := instance, 1 := instance] && s.pushed == [] && s.lost == []
    requires s.core == Core([], false, instance, None, 2)
    ensures var actions: seq<Action> := [Push(Delivery), Push(Delivery), Pop(0), Pop(1)];
      IsRun(s, actions) && Run(s, actions).lost == [Event(0, Delivery)]
  {
    var s1 := Step(s, Push(Delivery));
    var s2 := Step(s1, Push(Delivery));
    assert s2.core.buf == [Event(0, Delivery), Event(1, Delivery)];
    var s3 := Step(s2, Pop(0));
    assert s3.core.out == Some(Event(0, Delivery)) && Enabled(s3, Pop(1));
    var none: seq<Action> := [];
    RunFirst(s3, Pop(1), none);
    RunFirst(s2, Pop(0), [Pop(1)] + none);
    RunFirst(s1, Push(Delivery), [Pop(0)] + ([Pop(1)] + none));
    RunFirst(s, Push(Delivery), [Push(Delivery)] + ([Pop(0)] + ([Pop(1)] + none)));
    assert [Push(Delivery), Push(Delivery), Pop(0), Pop(1)]
        == [Push(Delivery)] + ([Push(Delivery)] + ([Pop(0)] + ([Pop(1)] + none)));
  }
}
