/**
  The manager inbox of internal/managers/inbox.go as a state machine. Each critical section is one
  step: a Next call is a first section (check the instance, finish the checked-out event), then
  the settling of that event outside the lock, then one of three second sections (stale, pop, give
  up). A run is any interleaving of the steps of any number of calls.
 */
module InboxModel {
  import opened Basics

  datatype Kind = Delivery | Tick | Start

  /** Numbered in push order; the random id of the source is a name for this number. */
  datatype Event = Event(id: nat, kind: Kind)

  /** The fields of Inbox that the mutex guards. */
  datatype Core = Core(buf: seq<Event>, tickQueued: bool, instance: string, out: Option<Event>, parked: nat)

  const EMPTY := Core([], false, "", None, 0)

  function Pushed(c: Core, e: Event): Core {
    c.(buf := c.buf + [e], tickQueued := c.tickQueued || e.kind.Tick?)
  }

  /** BindInstance, and UnbindInstance with the empty instance. */
  function Bound(c: Core, instance: string): Core {
    c.(instance := instance, out := None)
  }

  predicate Current(c: Core, instance: string) {
    instance != "" && c.instance == instance
  }

  function Begun(c: Core): Core {
    c.(parked := c.parked + 1, out := None)
  }

  function Popped(c: Core): Core
    requires c.buf != [] && c.parked > 0
  {
    var e := c.buf[0];
    c.(buf := c.buf[1..], tickQueued := c.tickQueued && !e.kind.Tick?, out := Some(e), parked := c.parked - 1)
  }

  function Left(c: Core): Core
    requires c.parked > 0
  {
    c.(parked := c.parked - 1)
  }

  // ---------------------------------------------------------------- the machine

  datatype Receipt = Receipt(event: Event, instance: string)

  datatype Fate = Processed(instance: string) | Abandoned

  datatype Finish = Finish(event: Event, fate: Fate)

  /**
    The inbox, the Next calls between their two sections, the ticks between check and push, the
    settle calls owed and made, and the history: what was pushed, handed out, finished, and
    overwritten in the checked-out slot.
   */
  datatype State = State(
    core: Core,
    calls: map<nat, string>,
    ticking: nat,
    owed: seq<Finish>,
    made: seq<Finish>,
    settled: map<Event, bool>,
    pushed: seq<Event>,
    received: seq<Receipt>,
    finished: seq<Finish>,
    lost: seq<Event>)

  const INIT := State(EMPTY, map[], 0, [], [], map[], [], [], [], [])

  datatype Action =
    | Push(kind: Kind)
    | CheckTick
    | PushTick
    | Bind(instance: string)
    | Begin(call: nat, instance: string)
    | Pop(call: nat)
    | GiveUp(call: nat)
    | Stale(call: nat)
    | Settle(k: nat)

  predicate Enabled(s: State, a: Action) {
    match a
    case Push(kind) => !kind.Tick?
    case CheckTick => !s.core.tickQueued
    case PushTick => s.ticking > 0
    case Bind(_) => true
    case Begin(call, instance) => call !in s.calls && Current(s.core, instance)
    case Pop(call) => call in s.calls && s.calls[call] == s.core.instance && s.core.buf != [] && s.core.parked > 0
    case GiveUp(call) => call in s.calls && s.calls[call] == s.core.instance && s.core.buf == [] && s.core.parked > 0
    case Stale(call) => call in s.calls && s.calls[call] != s.core.instance && s.core.parked > 0
    case Settle(k) => k < |s.owed|
  }

  function PushEvent(s: State, kind: Kind): State {
    var e := Event(|s.pushed|, kind);
    s.(core := Pushed(s.core, e), pushed := s.pushed + [e])
  }

  /** The event in the checked-out slot leaves it, and a settle call is owed for it. */
  function Finished(s: State, fate: Fate): State {
    if s.core.out.None? then s
    else
      var f := Finish(s.core.out.value, fate);
      s.(core := s.core.(out := None), owed := s.owed + [f], finished := s.finished + [f])
  }

  function Rebound(s: State, instance: string): State {
    s.(core := Bound(s.core, instance))
  }

  function Counted(s: State, call: nat, instance: string): State {
    s.(core := Begun(s.core), calls := s.calls[call := instance])
  }

  function BindTo(s: State, instance: string): State {
    Rebound(Finished(s, Abandoned), instance)
  }

  function BeginNext(s: State, call: nat, instance: string): State {
    Counted(Finished(s, Processed(instance)), call, instance)
  }

  function LeaveNext(s: State, call: nat): State
    requires s.core.parked > 0
  {
    s.(core := Left(s.core), calls := s.calls - {call})
  }

  function PopEvent(s: State, call: nat): State
    requires Enabled(s, Pop(call))
  {
    s.(core := Popped(s.core), calls := s.calls - {call},
       received := s.received + [Receipt(s.core.buf[0], s.calls[call])],
       lost := if s.core.out.Some? then s.lost + [s.core.out.value] else s.lost)
  }

  /** Only deliveries have a handle, and a handle settles once. */
  function SettleOwed(s: State, k: nat): State
    requires k < |s.owed|
  {
    var f := s.owed[k];
    s.(owed := s.owed[..k] + s.owed[k + 1..], made := s.made + [f],
       settled := if f.event.kind.Delivery? && f.event !in s.settled
                  then s.settled[f.event := f.fate.Processed?] else s.settled)
  }

  function Step(s: State, a: Action): State
    requires Enabled(s, a)
  {
    match a
    case Push(kind) => PushEvent(s, kind)
    case CheckTick => s.(ticking := s.ticking + 1)
    case PushTick => PushEvent(s, Tick).(ticking := s.ticking - 1)
    case Bind(instance) => BindTo(s, instance)
    case Begin(call, instance) => BeginNext(s, call, instance)
    case Pop(call) => PopEvent(s, call)
    case GiveUp(call) => LeaveNext(s, call)
    case Stale(call) => LeaveNext(s, call)
    case Settle(k) => SettleOwed(s, k)
  }

  ghost predicate IsRun(s: State, actions: seq<Action>)
    decreases |actions|
  {
    actions != [] ==> Enabled(s, actions[0]) && IsRun(Step(s, actions[0]), actions[1..])
  }

  function Run(s: State, actions: seq<Action>): State
    requires IsRun(s, actions)
    decreases |actions|
  {
    if actions == [] then s else Run(Step(s, actions[0]), actions[1..])
  }
}
