/**
  One concurrency group of internal/concurrency/manager.go as a state machine.

  Every semaphore the group ever had is kept in `sems`; an index plays the part of the
  *groupSem pointer. Each action is one atomic step of the source: a critical section
  under the manager's mutex, one channel operation of a select, or one atomic counter
  update. A run is any sequence of actions, so the theorems hold for every interleaving
  of acquires, releases, cancels, reloads and operator overrides.
 */
module Groups {
  import opened Basics

  const DEFAULT_LIMIT := 1

  type CallId = nat

  /** A groupSem. `tokens` is len(ch), `retired` says that the retired channel is closed. */
  datatype Sem = Sem(declared: int, limit: int, overridden: bool, tokens: nat, retired: bool, waiting: int)

  function NewSem(declared: int, limit: int, overridden: bool): Sem {
    Sem(declared, limit, overridden, 0, false, 0)
  }

  /** The advisory lists: run ids in acquire order, waiting calls in registration order. */
  datatype GroupQueue = GroupQueue(holders: seq<string>, waiting: seq<CallId>)

  /** What an onQueue callback receives. */
  datatype QueueState = QueueState(holders: seq<string>, position: nat)

  datatype Outcome = UnknownGroup | Cancelled | RemovedWhileQueued | Released

  /** Where a call of Acquire (and later of its release closure) stands. */
  datatype Pc =
    | Queued(sem: nat)      // in the wait loop, bound to sem
    | Took(sem: nat)        // the blocking send succeeded; the holder is not yet registered
    | Cancelling(sem: nat)  // the cancel channel won the select
    | Rebinding(sem: nat)   // the retired channel won the select
    | Holding(sem: nat)     // Acquire returned a release closure for sem's channel
    | Returning(sem: nat)   // the closure took its token back; the holder is still listed
    | Finished(outcome: Outcome)

  /** `watches`: onQueue was given. `armed`: counted in its semaphore's waiting counter. */
  datatype Call = Call(run: string, watches: bool, armed: bool, ticket: nat, pc: Pc)

  datatype Group = Group(
    sems: seq<Sem>,
    current: Option<nat>,
    override: Option<int>,
    queue: GroupQueue,
    calls: map<CallId, Call>,
    tickets: nat,
    views: map<CallId, QueueState>)

  const EMPTY_QUEUE := GroupQueue([], [])

  const INITIAL := Group([], None, None, EMPTY_QUEUE, map[], 0, map[])

  datatype Action =
    | Configure(declared: Option<int>)  // Update: the group's limit in the new config, if declared
    | SetOverride(limit: int)
    | ClearOverride
    | Acquire(c: CallId, run: string, watches: bool)
    | Arm(c: CallId)
    | Disarm(c: CallId)
    | SelectTake(c: CallId)
    | SelectCancel(c: CallId)
    | SelectRetired(c: CallId)
    | Register(c: CallId)
    | FinishCancel(c: CallId)
    | Rebind(c: CallId)
    | ReturnToken(c: CallId)
    | DropHolder(c: CallId)

  // ---------------------------------------------------------------- limits and swaps

  function Effective(override: Option<int>, declared: int): int {
    if override.Some? then override.value else declared
  }

  function Retire(sems: seq<Sem>, current: Option<nat>): seq<Sem> {
    if current.Some? && current.value < |sems| then
      sems[current.value := sems[current.value].(retired := true)]
    else sems
  }

  /** Keeps the current semaphore when its limit is unchanged, and swaps it otherwise. */
  function Install(g: Group, declared: int, limit: int, overridden: bool): Group {
    if g.current.Some? && g.current.value < |g.sems| && g.sems[g.current.value].limit == limit then
      var i := g.current.value;
      g.(sems := g.sems[i := g.sems[i].(declared := declared, overridden := overridden)])
    else
      g.(sems := Retire(g.sems, g.current) + [NewSem(declared, limit, overridden)], current := Some(|g.sems|))
  }

  function Configured(g: Group, declared: Option<int>): Group {
    match declared
    case None => g.(sems := Retire(g.sems, g.current), current := None)
    case Some(d) =>
      var declaredLimit := if d < 1 then DEFAULT_LIMIT else d;
      Install(g, declaredLimit, Effective(g.override, declaredLimit), g.override.Some?)
  }

  function Overridden(g: Group, limit: int): Group {
    if limit < 1 then g
    else
      var g' := g.(override := Some(limit));
      if g.current.Some? && g.current.value < |g.sems| then
        Install(g', g.sems[g.current.value].declared, limit, true)
      else g'
  }

  function Cleared(g: Group): Group {
    var g' := g.(override := None);
    if g.current.Some? && g.current.value < |g.sems| then
      var declared := g.sems[g.current.value].declared;
      Install(g', declared, declared, false)
    else g'
  }

  // ---------------------------------------------------------------- tokens and lists

  function AddTokens(sems: seq<Sem>, i: nat, n: int): seq<Sem>
    requires i < |sems| && sems[i].tokens + n >= 0
  {
    sems[i := sems[i].(tokens := sems[i].tokens + n)]
  }

  function AddWaiting(sems: seq<Sem>, i: nat, n: int): seq<Sem>
    requires i < |sems|
  {
    sems[i := sems[i].(waiting := sems[i].waiting + n)]
  }

  predicate HasRoom(sems: seq<Sem>, i: nat) {
    i < |sems| && sems[i].tokens < sems[i].limit
  }

  function WithHolder(q: GroupQueue, run: string): GroupQueue {
    if run == "" then q else q.(holders := q.holders + [run])
  }

  function WithoutHolder(q: GroupQueue, run: string): GroupQueue {
    if run == "" then q else q.(holders := RemoveFirst(q.holders, run))
  }

  function WithoutWaiter(q: GroupQueue, c: CallId): GroupQueue {
    q.(waiting := RemoveFirst(q.waiting, c))
  }

  /** One more than the index of the first occurrence, or 0 when there is none. */
  function Position(s: seq<CallId>, c: CallId): nat {
    if s == [] then 0
    else if s[0] == c then 1
    else var p := Position(s[1..], c); if p == 0 then 0 else p + 1
  }

  function ViewOf(q: GroupQueue, c: CallId): QueueState {
    QueueState(q.holders, Position(q.waiting, c))
  }

  predicate Watching(g: Group, c: CallId) {
    c in g.queue.waiting && c in g.calls && g.calls[c].watches
  }

  /** notifyWaiters: a fresh view for every listed waiter that has a callback. */
  function Notified(g: Group): Group {
    g.(views := map c | c in g.views.Keys + (set w | w in g.queue.waiting) && (c in g.views || Watching(g, c)) ::
      if Watching(g, c) then ViewOf(g.queue, c) else g.views[c])
  }

  function WithPc(g: Group, c: CallId, pc: Pc): Group
    requires c in g.calls
  {
    g.(calls := g.calls[c := g.calls[c].(pc := pc)])
  }

  // ---------------------------------------------------------------- the steps of one call

  predicate FastTakes(g: Group, a: Action) {
    a.Acquire? && a.c !in g.calls && g.current.Some? && HasRoom(g.sems, g.current.value)
  }

  function Acquired(g: Group, c: CallId, run: string, watches: bool): Group {
    if g.current.None? || g.current.value >= |g.sems| then
      g.(calls := g.calls[c := Call(run, watches, false, 0, Finished(UnknownGroup))])
    else if HasRoom(g.sems, g.current.value) then
      g.(sems := AddTokens(g.sems, g.current.value, 1),
         queue := WithHolder(g.queue, run),
         calls := g.calls[c := Call(run, watches, false, 0, Holding(g.current.value))])
    else
      var queue := if run == "" then g.queue else g.queue.(waiting := g.queue.waiting + [c]);
      g.(queue := queue,
         calls := g.calls[c := Call(run, watches, false, g.tickets, Queued(g.current.value))],
         tickets := g.tickets + 1,
         views := if watches then g.views[c := ViewOf(queue, c)] else g.views)
  }

  /** Leaves the wait line for a held slot, in one critical section. */
  function Admitted(g: Group, c: CallId, i: nat): Group
    requires c in g.calls
  {
    Notified(WithPc(g.(queue := WithHolder(WithoutWaiter(g.queue, c), g.calls[c].run)), c, Holding(i)))
  }

  function LeftLine(g: Group, c: CallId, outcome: Outcome): Group
    requires c in g.calls
  {
    Notified(WithPc(g.(queue := WithoutWaiter(g.queue, c)), c, Finished(outcome)))
  }

  function Rebound(g: Group, c: CallId): Group
    requires c in g.calls
  {
    if g.current.None? || g.current.value >= |g.sems| then LeftLine(g, c, RemovedWhileQueued)
    else if HasRoom(g.sems, g.current.value) then
      Admitted(g.(sems := AddTokens(g.sems, g.current.value, 1)), c, g.current.value)
    else WithPc(g, c, Queued(g.current.value))
  }

  /** The atomic add of +1 or -1 to the waiting counter of the semaphore the call is bound to. */
  function Counted(g: Group, c: CallId, armed: bool): Group
    requires c in g.calls && !g.calls[c].pc.Finished? && g.calls[c].pc.sem < |g.sems|
  {
    g.(sems := AddWaiting(g.sems, g.calls[c].pc.sem, if armed then 1 else -1),
       calls := g.calls[c := g.calls[c].(armed := armed)])
  }

  function Taken(g: Group, c: CallId): Group
    requires c in g.calls && !g.calls[c].pc.Finished? && g.calls[c].pc.sem < |g.sems|
  {
    WithPc(g.(sems := AddTokens(g.sems, g.calls[c].pc.sem, 1)), c, Took(g.calls[c].pc.sem))
  }

  function Returned(g: Group, c: CallId): Group
    requires c in g.calls && !g.calls[c].pc.Finished? && g.calls[c].pc.sem < |g.sems|
    requires g.sems[g.calls[c].pc.sem].tokens > 0
  {
    WithPc(g.(sems := AddTokens(g.sems, g.calls[c].pc.sem, -1)), c, Returning(g.calls[c].pc.sem))
  }

  function Dropped(g: Group, c: CallId): Group
    requires c in g.calls
  {
    Notified(WithPc(g.(queue := WithoutHolder(g.queue, g.calls[c].run)), c, Finished(Released)))
  }

  /** Whether the step can be taken: the program counter is there and the channel is ready. */
  predicate Enabled(g: Group, a: Action) {
    match a
    case Configure(_) => true
    case SetOverride(_) => true
    case ClearOverride => true
    case Acquire(c, _, _) => c !in g.calls
    case Arm(c) => c in g.calls && g.calls[c].pc.Queued? && !g.calls[c].armed && g.calls[c].pc.sem < |g.sems|
    case Disarm(c) =>
      && c in g.calls && g.calls[c].armed
      && (g.calls[c].pc.Took? || g.calls[c].pc.Cancelling? || g.calls[c].pc.Rebinding?)
      && g.calls[c].pc.sem < |g.sems|
    case SelectTake(c) =>
      c in g.calls && g.calls[c].pc.Queued? && g.calls[c].armed && HasRoom(g.sems, g.calls[c].pc.sem)
    case SelectCancel(c) => c in g.calls && g.calls[c].pc.Queued? && g.calls[c].armed
    case SelectRetired(c) =>
      && c in g.calls && g.calls[c].pc.Queued? && g.calls[c].armed
      && g.calls[c].pc.sem < |g.sems| && g.sems[g.calls[c].pc.sem].retired
    case Register(c) => c in g.calls && g.calls[c].pc.Took? && !g.calls[c].armed
    case FinishCancel(c) => c in g.calls && g.calls[c].pc.Cancelling? && !g.calls[c].armed
    case Rebind(c) => c in g.calls && g.calls[c].pc.Rebinding? && !g.calls[c].armed
    case ReturnToken(c) =>
      && c in g.calls && g.calls[c].pc.Holding?
      && g.calls[c].pc.sem < |g.sems| && g.sems[g.calls[c].pc.sem].tokens > 0
    case DropHolder(c) => c in g.calls && g.calls[c].pc.Returning?
  }

  /** One step; an action that is not enabled changes nothing. */
  function Step(g: Group, a: Action): Group {
    if !Enabled(g, a) then g
    else
      match a
      case Configure(declared) => Configured(g, declared)
      case SetOverride(limit) => Overridden(g, limit)
      case ClearOverride => Cleared(g)
      case Acquire(c, run, watches) => Acquired(g, c, run, watches)
      case Arm(c) => Counted(g, c, true)
      case Disarm(c) => Counted(g, c, false)
      case SelectTake(c) => Taken(g, c)
      case SelectCancel(c) => WithPc(g, c, Cancelling(g.calls[c].pc.sem))
      case SelectRetired(c) => WithPc(g, c, Rebinding(g.calls[c].pc.sem))
      case Register(c) => Admitted(g, c, g.calls[c].pc.sem)
      case FinishCancel(c) => LeftLine(g, c, Cancelled)
      case Rebind(c) => Rebound(g, c)
      case ReturnToken(c) => Returned(g, c)
      case DropHolder(c) => Dropped(g, c)
  }

  function Run(g: Group, actions: seq<Action>): Group
    decreases |actions|
  {
    if actions == [] then g else Run(Step(g, actions[0]), actions[1..])
  }

  // ---------------------------------------------------------------- counting calls

  /** The classes of calls that the invariant counts. */
  datatype Kind =
    | TokenOn(sem: nat)
    | TokenBelow(sem: nat)
    | ArmedOn(sem: nat)
    | Slotted
    | Listed
    | ListedAs(id: string)
    | Unregistered
    | Undropped
    | Held
    | Named
    | Anonymous

  predicate OwnsToken(call: Call) {
    call.pc.Took? || call.pc.Holding?
  }

  predicate InLine(call: Call) {
    call.pc.Queued? || call.pc.Took? || call.pc.Cancelling? || call.pc.Rebinding?
  }

  predicate Is(kind: Kind, call: Call) {
    match kind
    case TokenOn(i) => OwnsToken(call) && call.pc.sem == i
    case TokenBelow(i) => OwnsToken(call) && call.pc.sem < i
    case ArmedOn(i) => call.armed && InLine(call) && call.pc.sem == i
    case Slotted => OwnsToken(call)
    case Listed => call.run != "" && (call.pc.Holding? || call.pc.Returning?)
    case ListedAs(id) => call.run == id && id != "" && (call.pc.Holding? || call.pc.Returning?)
    case Unregistered => call.pc.Took?
    case Undropped => call.run != "" && call.pc.Returning?
    case Held => call.pc.Holding?
    case Named => call.run != "" && call.pc.Holding?
    case Anonymous => call.run == "" && call.pc.Holding?
  }

  function Members(calls: map<CallId, Call>, kind: Kind): set<CallId> {
    set c | c in calls && Is(kind, calls[c])
  }

  function Count(calls: map<CallId, Call>, kind: Kind): nat {
    |Members(calls, kind)|
  }

  function Tally(kind: Kind, call: Option<Call>): nat {
    if call.Some? && Is(kind, call.value) then 1 else 0
  }

  lemma CardDiffersAt(before: set<CallId>, after: set<CallId>, c: CallId)
    requires before - {c} == after - {c}
    ensures |after| == |before| - (if c in before then 1 else 0) + (if c in after then 1 else 0)
  {
    assert c in before ==> before == (before - {c}) + {c};
    assert c in after ==> after == (after - {c}) + {c};
    assert c !in before ==> before == before - {c};
    assert c !in after ==> after == after - {c};
  }

  lemma CountUpdate(calls: map<CallId, Call>, c: CallId, call: Call, kind: Kind)
    ensures Count(calls[c := call], kind)
         == Count(calls, kind) - Tally(kind, Lookup(calls, c)) + Tally(kind, Some(call))
  {
    CardDiffersAt(Members(calls, kind), Members(calls[c := call], kind), c);
  }

  lemma CountSplit(calls: map<CallId, Call>, whole: Kind, left: Kind, right: Kind)
    requires Members(calls, whole) == Members(calls, left) + Members(calls, right)
    requires Members(calls, left) !! Members(calls, right)
    ensures Count(calls, whole) == Count(calls, left) + Count(calls, right)
  {
  }

  // ---------------------------------------------------------------- the invariant

  /** Each semaphore: its token and waiting counters are exact, and retired means replaced. */
  predicate SemExact(g: Group, i: nat)
    requires i < |g.sems|
  {
    var sem := g.sems[i];
    && sem.limit >= 1 && sem.declared >= 1
    && sem.tokens == Count(g.calls, TokenOn(i)) <= sem.limit
    && sem.waiting == Count(g.calls, ArmedOn(i))
    && (sem.retired <==> g.current != Some(i))
  }

  predicate SemsExact(g: Group) {
    forall i: nat :: i < |g.sems| ==> SemExact(g, i)
  }

  predicate CurrentEffective(g: Group) {
    && (g.override.Some? ==> g.override.value >= 1)
    && (g.current.Some? ==>
          && g.current.value < |g.sems|
          && var sem := g.sems[g.current.value];
             sem.limit == Effective(g.override, sem.declared) && sem.overridden == g.override.Some?)
  }

  predicate CallsBound(g: Group) {
    forall c :: c in g.calls ==>
      var call := g.calls[c];
      && (call.armed ==> InLine(call))
      && (!call.pc.Finished? ==> call.pc.sem < |g.sems|)
      && (call.pc.Rebinding? ==> g.sems[call.pc.sem].retired)
      && (InLine(call) ==> call.ticket < g.tickets)
  }

  /** The waiting list holds exactly the named calls in line, by increasing ticket. */
  ghost predicate LineExact(g: Group) {
    && (forall c :: c in g.queue.waiting <==> c in g.calls && g.calls[c].run != "" && InLine(g.calls[c]))
    && (forall i, j :: 0 <= i < j < |g.queue.waiting| ==>
          g.calls[g.queue.waiting[i]].ticket < g.calls[g.queue.waiting[j]].ticket)
  }

  ghost predicate HoldersExact(g: Group) {
    && |g.queue.holders| == Count(g.calls, Listed)
    && (forall id :: multiset(g.queue.holders)[id] == Count(g.calls, ListedAs(id)))
  }

  ghost predicate Inv(g: Group) {
    SemsExact(g) && CurrentEffective(g) && CallsBound(g) && LineExact(g) && HoldersExact(g)
  }
}
