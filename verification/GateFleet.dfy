/**
  The fleet along every run of the reload gate. What a commit loads to is given by `tree`; a load
  checks it as Fleet.Runner.LoadAndApply does and writes the five stores of a clean one in turn. The
  gate loads under its mutex. A watcher reload takes no lock: it reads the checked-out commit at one
  moment and makes its writes at later ones, any number of reloads may be under way, and each of
  their moments may fall between any two effects of a gate operation or writes of a gate load.
 */
module GateFleet {
  import opened Basics
  import opened GateModel
  import opened GateSafety
  import Fleet

  type Trees = Sha -> Fleet.Tree

  type Store = Fleet.Store

  predicate Loads(tree: Trees, sha: Sha) {
    Fleet.Clean(tree(sha))
  }

  // ---------------------------------------------------------------- writes

  /** The fleet in memory, and the commit that each store was last written from. */
  datatype Held = Held(from: map<Store, Sha>, fleet: Fleet.Serving)

  const UNLOADED := Held(map[], Fleet.NOTHING)

  function WriteFrom(tree: Trees, f: Held, commit: Sha, store: Store): Held
    requires Loads(tree, commit)
  {
    Held(f.from[store := commit], Fleet.Write(f.fleet, Fleet.Whole(tree(commit)), store))
  }

  /** The store was not written, or holds its part of one clean commit. */
  predicate SaneAt(tree: Trees, f: Held, store: Store) {
    if store !in f.from then Fleet.SameIn(f.fleet, Fleet.NOTHING, store)
    else Loads(tree, f.from[store]) && Fleet.SameIn(f.fleet, Fleet.Whole(tree(f.from[store])), store)
  }

  /** And that commit is HEAD exactly when HEAD loads. */
  predicate SettledAt(tree: Trees, f: Held, head: Sha, store: Store) {
    SaneAt(tree, f, store) && (store in f.from ==> (f.from[store] == head <==> Loads(tree, head)))
  }

  lemma WriteSane(tree: Trees, f: Held, commit: Sha, written: Store, store: Store)
    requires Loads(tree, commit) && (store == written || SaneAt(tree, f, store))
    ensures SaneAt(tree, WriteFrom(tree, f, commit, written), store)
  {
    match written {
      case Groups =>
      case Schedules =>
      case Hooks =>
      case Managers =>
      case Supervised =>
    }
  }

  /** Writing a commit read earlier keeps a settled store settled exactly in these cases. */
  lemma WriteSettlesExactly(tree: Trees, f: Held, read: Sha, head: Sha, store: Store)
    requires SettledAt(tree, f, head, store) && store in f.from && Loads(tree, read)
    ensures SettledAt(tree, WriteFrom(tree, f, read, store), head, store) <==> read == head || !Loads(tree, head)
  {
    WriteSane(tree, f, read, store, store);
  }

  // ---------------------------------------------------------------- reloads

  function Rank(store: Store): nat {
    match store
    case Groups => 0
    case Schedules => 1
    case Hooks => 2
    case Managers => 3
    case Supervised => 4
  }

  function Next(store: Store): (n: Option<Store>)
    ensures n.None? <==> store.Supervised?
    ensures n.Some? ==> Rank(n.value) == Rank(store) + 1
  {
    match store
    case Groups => Some(Fleet.Schedules)
    case Schedules => Some(Fleet.Hooks)
    case Hooks => Some(Fleet.Managers)
    case Managers => Some(Fleet.Supervised)
    case Supervised => None
  }

  /** The moments of a watcher reload. */
  datatype Reload = Reads(r: nat) | Writes(r: nat)

  /**
    The fleet and the threads, reloads among them. `nexts`: what the reloads that have begun to
    write will write next. `gate`: the same for the gate's own load. `stale`: reloads that read
    before the last tree move. `late`: since that move one of those has written. `overtaken`: stores
    that such a reload was the last to write, from a commit other than HEAD. `pure`: no other load
    has written since the latest load that began alone began.
   */
  datatype Side = Side(
    f: Held, tasks: map<nat, Task>, nexts: map<nat, Store>, gate: Option<Store>,
    stale: set<nat>, late: bool, overtaken: set<Store>, pure: bool)

  predicate UnderWay(tasks: map<nat, Task>, r: nat) {
    r in tasks && tasks[r].Reloading?
  }

  /** One write of reload r, which read a clean commit. */
  function ReloadWrites(tree: Trees, k: Side, head: Sha, r: nat): Side
    requires UnderWay(k.tasks, r) && Loads(tree, k.tasks[r].commit)
  {
    var c, store := k.tasks[r].commit, GetOr(k.nexts, r, Fleet.Groups);
    var alone := k.nexts.Keys <= {r} && k.gate.None?;
    var last := Next(store).None?;
    k.(f := WriteFrom(tree, k.f, c, store),
       tasks := if last then k.tasks - {r} else k.tasks,
       nexts := if last then k.nexts - {r} else k.nexts[r := Next(store).value],
       late := k.late || r in k.stale,
       overtaken := if r in k.stale && c != head then k.overtaken + {store} else k.overtaken - {store},
       pure := alone && (r in k.nexts ==> k.pure))
  }

  function DoReload(tree: Trees, k: Side, head: Sha, w: Reload): Side {
    match w
    case Reads(r) =>
      if r in k.tasks then k
      else k.(tasks := k.tasks[r := Reloading(head)], nexts := k.nexts - {r}, stale := k.stale - {r})
    case Writes(r) =>
      if !UnderWay(k.tasks, r) then k
      else if !Loads(tree, k.tasks[r].commit) then k.(tasks := k.tasks - {r}, nexts := k.nexts - {r})
      else ReloadWrites(tree, k, head, r)
  }

  function DoReloads(tree: Trees, k: Side, head: Sha, ws: seq<Reload>): Side
    decreases |ws|
  {
    if ws == [] then k else DoReloads(tree, DoReload(tree, k, head, ws[0]), head, ws[1..])
  }

  /** HEAD changes: every reload under way has read another tree. */
  function TreeMoves(k: Side): Side {
    k.(stale := (set r | r in k.tasks && k.tasks[r].Reloading?), late := false, overtaken := {})
  }

  /** One write of the gate's own load of HEAD, if HEAD loads. */
  function GateWrites(tree: Trees, k: Side, head: Sha, store: Store): Side {
    if !Loads(tree, head) then k
    else
      k.(f := WriteFrom(tree, k.f, head, store), gate := Next(store), overtaken := k.overtaken - {store},
         pure := k.nexts == map[] && (store.Groups? || k.pure))
  }

  /** The gate's load from `store` on; `during[s]` is what reloads do right after its write of s. */
  function GateLoads(tree: Trees, k: Side, head: Sha, store: Store, during: map<Store, seq<Reload>>): Side
    decreases 5 - Rank(store)
  {
    var k' := DoReloads(tree, GateWrites(tree, k, head, store), head, GetOr(during, store, []));
    if Next(store).None? then k' else GateLoads(tree, k', head, Next(store).value, during)
  }

  // ---------------------------------------------------------------- joint runs

  /** The positions among an operation's effects at which the gate itself calls the loader. */
  function LoadPoints(w: World, op: Op): set<nat> {
    if MovesTree(w, op) then {2, 5} else {}
  }

  /** What reloads do right after each effect, and during the load at it. */
  datatype Reloads = Reloads(between: map<nat, seq<Reload>>, during: map<nat, map<Store, seq<Reload>>>)

  const NO_RELOADS := Reloads(map[], map[])

  function AfterEffect(tree: Trees, k: Side, head: Sha, head': Sha, at: nat, points: set<nat>, rs: Reloads): Side {
    var moved := if head' != head then TreeMoves(k) else k;
    var during := GetOr(rs.during, at, map[]);
    var loaded := if at in points then GateLoads(tree, moved, head', Fleet.Groups, during) else moved;
    DoReloads(tree, loaded, head', GetOr(rs.between, at, []))
  }

  /** Through a list of effects. */
  function Replay(tree: Trees, k: Side, head: Sha, steps: seq<World>, at: nat, points: set<nat>, rs: Reloads): Side
    decreases |steps|
  {
    if steps == [] then k
    else
      var k' := AfterEffect(tree, k, head, steps[0].head, at, points, rs);
      Replay(tree, k', steps[0].head, steps[1..], at + 1, points, rs)
  }

  /** An event of the gate with the reloads that fall into it, or a moment of a reload outside any. */
  datatype Moment = Gate(e: Event, rs: Reloads) | Idle(w: Reload)

  datatype Joint = Joint(
    s: State, f: Held, nexts: map<nat, Store>, stale: set<nat>, late: bool, overtaken: set<Store>, pure: bool)

  function SideOf(j: Joint): Side {
    Side(j.f, j.s.tasks, j.nexts, None, j.stale, j.late, j.overtaken, j.pure)
  }

  function Joined(s: State, k: Side): Joint {
    Joint(s.(tasks := k.tasks), k.f, k.nexts, k.stale, k.late, k.overtaken, k.pure)
  }

  function Unloaded(s: State): Joint {
    Joint(s, UNLOADED, map[], {}, false, {}, true)
  }

  /** An event that neither starts nor ends the process. */
  predicate Goes(s: State, e: Event) {
    Ready(s, e.a) && e.Completes? && !e.a.Start?
  }

  /** A reload's writes with nothing in between; once it has made its last, more change nothing. */
  function WritesOf(r: nat, n: nat): seq<Reload> {
    if n == 0 then [] else [Writes(r)] + WritesOf(r, n - 1)
  }

  function AllWrites(r: nat): seq<Reload> {
    WritesOf(r, 5)
  }

  function SideAfter(tree: Trees, j: Joint, e: Event, rs: Reloads): Side
    requires Goes(j.s, e)
  {
    var k, a, head := SideOf(j), e.a, j.s.world.head;
    if a.WatcherReads? then DoReload(tree, k, head, Reads(a.t))
    else if a.WatcherSwaps? then DoReloads(tree, k, head, AllWrites(a.t))
    else
      var own := k.(tasks := TasksAfter(j.s, a));
      if OpOf(j.s, a).None? then own
      else
        var op := OpOf(j.s, a).value;
        Replay(tree, own, head, Steps(j.s.world, op), 0, LoadPoints(j.s.world, op), rs)
  }

  /** A process that dies or starts has no fleet and no reload under way. */
  function JointStep(tree: Trees, j: Joint, m: Moment): Joint {
    match m
    case Idle(w) => if j.s.up then Joined(j.s, DoReload(tree, SideOf(j), j.s.world.head, w)) else j
    case Gate(e, rs) =>
      if !Ready(j.s, e.a) then j
      else if !Goes(j.s, e) then Unloaded(Step(j.s, e))
      else Joined(Step(j.s, e), SideAfter(tree, j, e, rs))
  }

  function JointRun(tree: Trees, j: Joint, moments: seq<Moment>): Joint
    decreases |moments|
  {
    if moments == [] then j else JointRun(tree, JointStep(tree, j, moments[0]), moments[1..])
  }

  function Before(head: Sha): Joint {
    Unloaded(Fresh(head))
  }
}
