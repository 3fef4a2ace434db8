/**
  The CI reload gate of internal/reloadgate as a state machine over the gate's record, its
  state file, the checked-out HEAD of the hooks repository and the fleet's registry.

  A critical section under the gate's mutex is one operation. Its external effects (a git
  reset, a state-file write, a fleet load) are listed one by one, because a crash can fall
  between any two of them. Git, the disk and the loader answer through `Env` values, so the
  theorems hold for every combination of answers.
 */
module GateModel {
  import opened Basics

  type Sha = string  // "" is "none"

  const FETCH_DEPTH := 100
  const VERDICT_TTL := 7 * 24 * 3600 * 1_000_000_000
  const MAX_VERDICTS := 200

  datatype Verdict = Verdict(sha: Sha, state: string, seenAt: int)

  /** The gate's fields, and equally the JSON record in its state file. */
  datatype Record = Record(
    serving: Sha, verified: bool, pending: Sha, pendingState: string, verdicts: seq<Verdict>)

  const EMPTY_RECORD := Record("", false, "", "", [])

  /** `registry` is the commit whose load the fleet serves; None before the first load. */
  datatype World = World(mem: Record, disk: Option<Record>, head: Sha, registry: Option<Sha>)

  // ---------------------------------------------------------------- verdicts

  function Unexpired(vs: seq<Verdict>, now: int): seq<Verdict> {
    if vs == [] then []
    else (if now - vs[0].seenAt < VERDICT_TTL then [vs[0]] else []) + Unexpired(vs[1..], now)
  }

  /** The first index with the least seenAt. */
  function Oldest(vs: seq<Verdict>): (k: nat)
    requires vs != []
    ensures k < |vs|
    ensures forall i :: 0 <= i < |vs| ==> vs[k].seenAt <= vs[i].seenAt
    ensures forall i :: 0 <= i < k ==> vs[k].seenAt < vs[i].seenAt
  {
    if |vs| == 1 then 0
    else
      var k := Oldest(vs[..|vs| - 1]);
      if vs[|vs| - 1].seenAt < vs[k].seenAt then |vs| - 1 else k
  }

  function Trimmed(vs: seq<Verdict>): seq<Verdict>
    decreases |vs|
  {
    if |vs| <= MAX_VERDICTS then vs
    else var k := Oldest(vs); Trimmed(vs[..k] + vs[k + 1..])
  }

  function Pruned(vs: seq<Verdict>, now: int): seq<Verdict> {
    Trimmed(Unexpired(vs, now))
  }

  function Upserted(vs: seq<Verdict>, v: Verdict): seq<Verdict> {
    if vs == [] then [v]
    else if vs[0].sha == v.sha then [v] + vs[1..]
    else [vs[0]] + Upserted(vs[1..], v)
  }

  /** The state of the first unexpired verdict for the commit. */
  function VerdictFor(vs: seq<Verdict>, sha: Sha, now: int): Option<string> {
    if vs == [] then None
    else if vs[0].sha == sha && now - vs[0].seenAt < VERDICT_TTL then Some(vs[0].state)
    else VerdictFor(vs[1..], sha, now)
  }

  // ---------------------------------------------------------------- external effects

  /** How git, the loader and the disk answer an apply and its rollback. */
  datatype ApplyEnv = ApplyEnv(loads: bool, resetsBack: bool, savesBack: bool, loadsBack: bool)

  /** `commits`: the recent history read after the fetch; None if the fetch or the read failed. */
  datatype SwitchEnv = SwitchEnv(commits: Option<seq<Sha>>, resets: bool, saves: bool, apply: ApplyEnv)

  datatype BootEnv = BootEnv(
    now: int, readsHead: bool, fetchesSha: bool, resetsSha: bool, tip: Option<Sha>, resetsTip: bool,
    saves: bool, savesSettled: bool)

  /** persistLocked: the file becomes the record in memory, or stays as it was. */
  function Persisted(w: World, saves: bool): World {
    if saves then w.(disk := Some(w.mem)) else w
  }

  /** The fleet load: everything from HEAD, or nothing at all. */
  function Loaded(w: World, loads: bool): World {
    if loads then w.(registry := Some(w.head)) else w
  }

  function Serving(w: World, sha: Sha, verified: bool): World {
    w.(mem := w.mem.(serving := sha, verified := verified))
  }

  function Pending(w: World, sha: Sha, state: string): World {
    w.(mem := w.mem.(pending := sha, pendingState := state))
  }

  function IndexOf(list: seq<Sha>, s: Sha): int {
    if s == "" then -1 else FirstIndex(list, s, 0)
  }

  function FirstIndex(list: seq<Sha>, s: Sha, from: nat): int {
    if list == [] then -1
    else if list[0] == s then from
    else FirstIndex(list[1..], s, from + 1)
  }

  /** applyOrRollbackLocked: the effects after a switch to sha was recorded. */
  function ApplySteps(w: World, sha: Sha, prev: Sha, prevVerified: bool, env: ApplyEnv): seq<World> {
    var applied := Loaded(w, env.loads);
    if env.loads || prev == "" || prev == sha || !env.resetsBack then [applied]
    else
      var reset := applied.(head := prev);
      var saved := Persisted(Serving(reset, prev, prevVerified), env.savesBack);
      [applied, reset, saved, Loaded(saved, env.loadsBack)]
  }

  /** A switch already made in the fields: write it down, then load or roll back. */
  function RecordSteps(moved: World, sha: Sha, prev: Sha, prevVerified: bool, env: SwitchEnv): seq<World> {
    var saved := Persisted(moved, env.saves);
    [saved] + ApplySteps(saved, sha, prev, prevVerified, env.apply)
  }

  /** The ordering rule: in the recent history, and not older than the serving commit. */
  predicate InOrder(commits: seq<Sha>, sha: Sha, serving: Sha) {
    var pos, posServing := IndexOf(commits, sha), IndexOf(commits, serving);
    pos != -1 && !(posServing != -1 && posServing < pos)
  }

  predicate Moves(w: World, sha: Sha, env: SwitchEnv) {
    && sha != w.mem.serving && env.commits.Some?
    && InOrder(env.commits.value, sha, w.mem.serving) && env.resets
  }

  /** A pending commit newer than the one switched to stays pending. */
  function AfterSwitch(w: World, sha: Sha, commits: seq<Sha>): World {
    var pos := IndexOf(commits, w.mem.pending);
    if w.mem.pending != "" && w.mem.pending != sha && pos != -1 && pos < IndexOf(commits, sha) then w
    else Pending(w, "", "")
  }

  function SwitchSteps(w: World, sha: Sha, env: SwitchEnv): seq<World> {
    if sha == w.mem.serving then
      if w.mem.verified then [] else [Persisted(Serving(w, sha, true), env.saves)]
    else if !Moves(w, sha, env) then []
    else
      var reset := w.(head := sha);
      var moved := AfterSwitch(Serving(reset, sha, true), sha, env.commits.value);
      [reset] + RecordSteps(moved, sha, w.mem.serving, w.mem.verified, env)
  }

  /** forceApplyLocked: no ordering rule. */
  function ForceSteps(w: World, sha: Sha, clearPending: bool, env: SwitchEnv): seq<World> {
    if !env.resets then []
    else
      var reset := w.(head := sha);
      var serving := Serving(reset, sha, true);
      var moved := if clearPending || w.mem.pending == sha then Pending(serving, "", "") else serving;
      [reset] + RecordSteps(moved, sha, w.mem.serving, w.mem.verified, env)
  }

  // ---------------------------------------------------------------- startup

  /** New: the record on disk, with its verdicts pruned, or the empty record. */
  function Restarted(w: World, now: int): World {
    var record := if w.disk.Some? then w.disk.value else EMPTY_RECORD;
    w.(mem := record.(verdicts := Pruned(record.verdicts, now)), registry := None)
  }

  function ReadHead(w: World, env: BootEnv): Sha {
    if env.readsHead then w.head else ""
  }

  function SettleSteps(w: World, env: BootEnv): seq<World> {
    if w.mem.serving == "" then [Persisted(Serving(w, ReadHead(w, env), false), env.saves)]
    else if env.readsHead && w.head == w.mem.serving then []
    else if env.fetchesSha && env.resetsSha then [w.(head := w.mem.serving)]
    else if env.tip.Some? && env.resetsTip then
      var reset := w.(head := env.tip.value);
      [reset, Persisted(Serving(reset, env.tip.value, false), env.saves)]
    else [Serving(w, ReadHead(w, env), false)]
  }

  function Last(w: World, steps: seq<World>): World {
    if steps == [] then w else steps[|steps| - 1]
  }

  function BootSteps(w: World, env: BootEnv): seq<World> {
    var start := Restarted(w, env.now);
    var settle := SettleSteps(start, env);
    [start] + (settle + UnpendSteps(Last(start, settle), env))
  }

  /** A pending commit that ended up serving is settled. */
  function UnpendSteps(w: World, env: BootEnv): seq<World> {
    if w.mem.pending != "" && w.mem.pending == w.mem.serving then
      [Persisted(Pending(w, "", ""), env.savesSettled)]
    else []
  }

  // ---------------------------------------------------------------- operations

  datatype Op =
    | Push(tip: Sha, saves: bool)
    | SaveVerdict(sha: Sha, state: string, now: int, saves: bool)
    | HoldRed(sha: Sha, state: string, saves: bool)
    | TrySwitch(sha: Sha, env: SwitchEnv)
    | ClearIfCurrent(tip: Sha, saves: bool)
    | PointPending(tip: Sha)
    | HoldPending(tip: Sha, saves: bool)
    | Force(sha: Sha, clearPending: bool, env: SwitchEnv)
    | SwapRead(commit: Sha, loads: bool)
    | Boot(boot: BootEnv)

  function HoldPendingStep(w: World, sha: Sha, saves: bool): World {
    Persisted(Pending(w, sha, "pending"), saves)
  }

  function ClearSteps(w: World, tip: Sha, saves: bool): seq<World> {
    if tip == w.mem.serving && w.mem.pending != "" then [Persisted(Pending(w, "", ""), saves)] else []
  }

  /** The effects of one operation in order; the last one is the state it leaves. */
  function Steps(w: World, op: Op): seq<World> {
    match op
    case Push(tip, saves) =>
      if tip == w.mem.serving then ClearSteps(w, tip, saves) else [HoldPendingStep(w, tip, saves)]
    case SaveVerdict(sha, state, now, saves) =>
      var vs := Pruned(Upserted(w.mem.verdicts, Verdict(sha, state, now)), now);
      [Persisted(w.(mem := w.mem.(verdicts := vs)), saves)]
    case HoldRed(sha, state, saves) =>
      if sha != w.mem.pending && !(w.mem.pending == "" && sha != w.mem.serving) then []
      else [Persisted(Pending(w, sha, state), saves)]
    case TrySwitch(sha, env) => SwitchSteps(w, sha, env)
    case ClearIfCurrent(tip, saves) => ClearSteps(w, tip, saves)
    case PointPending(tip) => [w.(mem := w.mem.(pending := tip))]
    case HoldPending(tip, saves) => [HoldPendingStep(w, tip, saves)]
    case Force(sha, clearPending, env) => ForceSteps(w, sha, clearPending, env)
    case SwapRead(commit, loads) => [if loads then w.(registry := Some(commit)) else w]
    case Boot(env) => BootSteps(w, env)
  }

  function After(w: World, op: Op): World {
    Last(w, Steps(w, op))
  }

  // ---------------------------------------------------------------- threads

  /**
    What a status delivery, a poll or a watcher reload still has to do, with its local variables.
    A reload holds no lock: it has read a commit and has yet to swap in what it read.
   */
  datatype Task =
    | PollFetch(serving: Sha)
    | PollCurrent(tip: Sha)
    | PollRead(tip: Sha)
    | PollRecall(tip: Sha)
    | Switching(sha: Sha)
    | RedCheck(tip: Sha, state: string)
    | RedPoint(tip: Sha, state: string)
    | RedHold(sha: Sha, state: string)
    | PendCheck(tip: Sha)
    | PendHold(tip: Sha)
    | Reloading(commit: Sha)

  /** `greens`: commits ever reported green. `vouched`: commits an operator ever forced. */
  datatype State = State(up: bool, world: World, tasks: map<nat, Task>, greens: set<Sha>, vouched: set<Sha>)

  /** `state`, `ci`: what GitHub answered. `Start` is New followed by Startup. */
  datatype Action =
    | DeliverPush(tip: Sha, saves: bool)
    | DeliverStatus(t: nat, sha: Sha, state: string, now: int, saves: bool)
    | BeginPoll(t: nat)
    | Fetched(t: nat, fetched: Option<Sha>)
    | Answered(t: nat, answer: Option<string>)
    | Recall(t: nat, now: int)
    | Advance(t: nat, saves: bool)
    | Switch(t: nat, env: SwitchEnv)
    | OperatorForce(sha: Sha, clearPending: bool, env: SwitchEnv)
    | OperatorPick(sha: Sha, override: bool, ci: string, hasSrc: bool, clearPending: bool, env: SwitchEnv)
    | WatcherReads(t: nat)
    | WatcherSwaps(t: nat, loads: bool)
    | Start(boot: BootEnv)

  /** An action runs to its end, or the process dies after k of its effects. */
  datatype Event = Completes(a: Action) | Crashes(a: Action, k: nat)

  predicate Terminal(state: string) {
    state == "success" || state == "failure" || state == "error"
  }

  function HeldState(r: Record): string {
    if r.pendingState == "" then "pending" else r.pendingState
  }

  predicate AlreadyHeld(r: Record, sha: Sha, state: string) {
    r.pending == sha && HeldState(r) == state
  }

  /** The thread named by the action is where the action needs it. */
  predicate Ready(s: State, a: Action) {
    if a.Start? then !s.up
    else
      && s.up
      && match a
         case DeliverStatus(t, _, state, _, _) => t !in s.tasks && Terminal(state)
         case BeginPoll(t) => t !in s.tasks
         case Fetched(t, _) => t in s.tasks && s.tasks[t].PollFetch?
         case Answered(t, _) => t in s.tasks && s.tasks[t].PollRead?
         case Recall(t, _) => t in s.tasks && s.tasks[t].PollRecall?
         case Advance(t, _) =>
           && t in s.tasks
           && !s.tasks[t].PollFetch? && !s.tasks[t].PollRead? && !s.tasks[t].PollRecall?
           && !s.tasks[t].Switching? && !s.tasks[t].Reloading?
         case Switch(t, _) => t in s.tasks && s.tasks[t].Switching?
         case WatcherReads(t) => t !in s.tasks
         case WatcherSwaps(t, _) => t in s.tasks && s.tasks[t].Reloading?
         case _ => true
  }

  /** ManualSwitch refuses a pick that is not green with sources, unless overridden. */
  predicate PickAllowed(override: bool, ci: string, hasSrc: bool) {
    override || (ci == "success" && hasSrc)
  }

  /** The critical section that an action runs, if it changes more than its own thread. */
  function OpOf(s: State, a: Action): Option<Op>
    requires Ready(s, a)
  {
    match a
    case DeliverPush(tip, saves) => Some(Push(tip, saves))
    case DeliverStatus(_, sha, state, now, saves) => Some(SaveVerdict(sha, state, now, saves))
    case Advance(t, saves) =>
      (match s.tasks[t]
       case PollCurrent(tip) => Some(ClearIfCurrent(tip, saves))
       case RedPoint(tip, _) => Some(PointPending(tip))
       case RedHold(sha, state) => Some(HoldRed(sha, state, saves))
       case PendHold(tip) => Some(HoldPending(tip, saves))
       case _ => None)
    case Switch(t, env) => Some(TrySwitch(s.tasks[t].sha, env))
    case OperatorForce(sha, clearPending, env) => Some(Force(sha, clearPending, env))
    case OperatorPick(sha, override, ci, hasSrc, clearPending, env) =>
      if PickAllowed(override, ci, hasSrc) then Some(Force(sha, clearPending, env)) else None
    case WatcherSwaps(t, loads) => Some(SwapRead(s.tasks[t].commit, loads))
    case Start(env) => Some(Boot(env))
    case _ => None
  }

  /** Where a poll goes once the state of the tip is known. */
  function Decided(tip: Sha, state: string): Task {
    if state == "success" then Switching(tip)
    else if state == "failure" || state == "error" then RedCheck(tip, state)
    else PendCheck(tip)
  }

  function TasksAfter(s: State, a: Action): map<nat, Task>
    requires Ready(s, a)
  {
    match a
    case DeliverStatus(t, sha, state, _, _) =>
      s.tasks[t := if state == "success" then Switching(sha) else RedHold(sha, state)]
    case BeginPoll(t) => s.tasks[t := PollFetch(s.world.mem.serving)]
    case Fetched(t, fetched) =>
      if fetched.None? then s.tasks - {t}
      else if fetched.value == s.tasks[t].serving then s.tasks[t := PollCurrent(fetched.value)]
      else s.tasks[t := PollRead(fetched.value)]
    case Answered(t, answer) =>
      s.tasks[t := if answer.None? then PollRecall(s.tasks[t].tip) else Decided(s.tasks[t].tip, answer.value)]
    case Recall(t, now) =>
      var known := VerdictFor(s.world.mem.verdicts, s.tasks[t].tip, now);
      if known.None? then s.tasks - {t} else s.tasks[t := Decided(s.tasks[t].tip, known.value)]
    case Advance(t, _) =>
      (match s.tasks[t]
       case RedCheck(tip, state) =>
         if AlreadyHeld(s.world.mem, tip, state) then s.tasks - {t} else s.tasks[t := RedPoint(tip, state)]
       case RedPoint(tip, state) => s.tasks[t := RedHold(tip, state)]
       case PendCheck(tip) =>
         if AlreadyHeld(s.world.mem, tip, "pending") then s.tasks - {t} else s.tasks[t := PendHold(tip)]
       case _ => s.tasks - {t})
    case Switch(t, _) => s.tasks - {t}
    case WatcherReads(t) => s.tasks[t := Reloading(s.world.head)]
    case WatcherSwaps(t, _) => s.tasks - {t}
    case _ => s.tasks
  }

  /** The commits that the action itself brings a green report or an operator's word for. */
  function GreensAfter(s: State, a: Action): set<Sha>
    requires Ready(s, a)
  {
    match a
    case DeliverStatus(_, sha, state, _, _) => if state == "success" then s.greens + {sha} else s.greens
    case Answered(t, answer) => if answer == Some("success") then s.greens + {s.tasks[t].tip} else s.greens
    case OperatorPick(sha, override, ci, _, _, _) => if !override && ci == "success" then s.greens + {sha} else s.greens
    case _ => s.greens
  }

  function VouchedAfter(s: State, a: Action): set<Sha> {
    match a
    case OperatorForce(sha, _, _) => s.vouched + {sha}
    case OperatorPick(sha, override, _, _, _, _) => if override then s.vouched + {sha} else s.vouched
    case _ => s.vouched
  }

  /** The effects of an action, none for one that only moves its own thread. */
  function Effects(s: State, a: Action): seq<World>
    requires Ready(s, a)
  {
    var op := OpOf(s, a);
    if op.None? then [] else Steps(s.world, op.value)
  }

  function Step(s: State, e: Event): State {
    if !Ready(s, e.a) then s
    else
      var effects := Effects(s, e.a);
      match e
      case Completes(a) =>
        State(true, Last(s.world, effects), TasksAfter(s, a), GreensAfter(s, a), VouchedAfter(s, a))
      case Crashes(a, k) =>
        State(false, Last(s.world, effects[..Min(k, |effects|)]), map[], GreensAfter(s, a), VouchedAfter(s, a))
  }

  function Run(s: State, events: seq<Event>): State
    decreases |events|
  {
    if events == [] then s else Run(Step(s, events[0]), events[1..])
  }

  /** Before the first boot: no state file, some commit checked out, nothing loaded. */
  function Fresh(head: Sha): State {
    State(false, World(EMPTY_RECORD, None, head, None), map[], {}, {})
  }
}
