/** Particular runs of GateFleet: loads that nothing disturbs, late and straddling reloads, the gate's own runs. */
module FleetRuns {
  import opened Basics
  import opened GateModel
  import opened GateSafety
  import opened GateFleet
  import opened FleetSafety
  import Fleet

  // ---------------------------------------------------------------- undisturbed loads

  /** The fleet that one whole load of a clean commit leaves. */
  function AllFrom(tree: Trees, c: Sha): Held
    requires Loads(tree, c)
  {
    Held(map[Fleet.Groups := c, Fleet.Schedules := c, Fleet.Hooks := c, Fleet.Managers := c, Fleet.Supervised := c],
         Fleet.Whole(tree(c)))
  }

  /** The stores before `next` written from c, over f. */
  function PartFrom(tree: Trees, f: Held, c: Sha, next: Store): Held
    requires Loads(tree, c)
    decreases Rank(next)
  {
    match next
    case Groups => f
    case Schedules => WriteFrom(tree, f, c, Fleet.Groups)
    case Hooks => WriteFrom(tree, PartFrom(tree, f, c, Fleet.Schedules), c, Fleet.Schedules)
    case Managers => WriteFrom(tree, PartFrom(tree, f, c, Fleet.Hooks), c, Fleet.Hooks)
    case Supervised => WriteFrom(tree, PartFrom(tree, f, c, Fleet.Managers), c, Fleet.Managers)
  }

  lemma PartNext(tree: Trees, f: Held, c: Sha, store: Store)
    requires Loads(tree, c)
    ensures Next(store).Some? ==>
      WriteFrom(tree, PartFrom(tree, f, c, store), c, store) == PartFrom(tree, f, c, Next(store).value)
    ensures Next(store).None? ==> WriteFrom(tree, PartFrom(tree, f, c, store), c, store) == AllFrom(tree, c)
  {
    if store.Supervised? {
      LastWrite(tree, f, c);
    }
  }

  lemma LastWrite(tree: Trees, f: Held, c: Sha)
    requires Loads(tree, c)
    ensures WriteFrom(tree, PartFrom(tree, f, c, Fleet.Supervised), c, Fleet.Supervised) == AllFrom(tree, c)
  {
    var p1 := PartFrom(tree, f, c, Fleet.Schedules);
    var p2 := PartFrom(tree, f, c, Fleet.Hooks);
    var p3 := PartFrom(tree, f, c, Fleet.Managers);
    var p4 := PartFrom(tree, f, c, Fleet.Supervised);
    var p5 := WriteFrom(tree, p4, c, Fleet.Supervised);
    var all := AllFrom(tree, c).from;
    forall s: Store ensures s in p5.from && p5.from[s] == c && s in all && all[s] == c {
      match s {
        case Groups =>
        case Schedules =>
        case Hooks =>
        case Managers =>
        case Supervised =>
      }
    }
    assert p5.from == all;
  }

  /** A gate load that no reload interrupts. */
  lemma {:induction false} GateLoadAlone(tree: Trees, k: Side, f: Held, head: Sha, store: Store)
    requires Loads(tree, head) && k.f == PartFrom(tree, f, head, store)
    ensures var k' := GateLoads(tree, k, head, store, map[]);
      k'.f == AllFrom(tree, head) && k'.tasks == k.tasks && k'.nexts == k.nexts
    decreases 5 - Rank(store)
  {
    PartNext(tree, f, head, store);
    if Next(store).Some? {
      GateLoadAlone(tree, GateWrites(tree, k, head, store), f, head, Next(store).value);
    }
  }

  lemma {:induction false} GateLoadRefused(tree: Trees, k: Side, head: Sha, store: Store)
    requires !Loads(tree, head)
    ensures GateLoads(tree, k, head, store, map[]) == k
    decreases 5 - Rank(store)
  {
    if Next(store).Some? {
      GateLoadRefused(tree, k, head, Next(store).value);
    }
  }

  /** One write of a reload that has written the stores before `store`. */
  lemma WriteStep(tree: Trees, k: Side, f: Held, head: Sha, r: nat, store: Store)
    requires UnderWay(k.tasks, r) && Loads(tree, k.tasks[r].commit) && GetOr(k.nexts, r, Fleet.Groups) == store
    requires k.f == PartFrom(tree, f, k.tasks[r].commit, store)
    ensures var k', c := DoReload(tree, k, head, Writes(r)), k.tasks[r].commit;
      if Next(store).Some?
      then
        && k'.f == PartFrom(tree, f, c, Next(store).value)
        && k'.tasks == k.tasks && k'.nexts == k.nexts[r := Next(store).value]
      else k'.f == AllFrom(tree, c) && k'.tasks == k.tasks - {r} && k'.nexts == k.nexts - {r}
  {
    PartNext(tree, f, k.tasks[r].commit, store);
  }

  lemma WritesFirst(tree: Trees, k: Side, head: Sha, r: nat, n: nat)
    requires n > 0
    ensures DoReloads(tree, k, head, WritesOf(r, n))
         == DoReloads(tree, DoReload(tree, k, head, Writes(r)), head, WritesOf(r, n - 1))
  {
    assert WritesOf(r, n)[1..] == WritesOf(r, n - 1);
  }

  lemma {:induction false} WritesRest(tree: Trees, k: Side, f: Held, head: Sha, r: nat, store: Store)
    requires UnderWay(k.tasks, r) && Loads(tree, k.tasks[r].commit) && GetOr(k.nexts, r, Fleet.Groups) == store
    requires k.f == PartFrom(tree, f, k.tasks[r].commit, store)
    ensures var k' := DoReloads(tree, k, head, WritesOf(r, 5 - Rank(store)));
      k'.f == AllFrom(tree, k.tasks[r].commit) && k'.tasks == k.tasks - {r} && k'.nexts == k.nexts - {r}
    decreases 5 - Rank(store)
  {
    var k1 := DoReload(tree, k, head, Writes(r));
    WriteStep(tree, k, f, head, r, store);
    WritesFirst(tree, k, head, r, 5 - Rank(store));
    if Next(store).Some? {
      WritesRest(tree, k1, f, head, r, Next(store).value);
      assert k.nexts[r := Next(store).value] - {r} == k.nexts - {r};
    } else {
      assert WritesOf(r, 0) == [];
    }
  }

  /** A reload whose writes nothing interrupts. */
  lemma SwapAlone(tree: Trees, k: Side, head: Sha, r: nat)
    requires UnderWay(k.tasks, r) && Loads(tree, k.tasks[r].commit) && r !in k.nexts
    ensures var k' := DoReloads(tree, k, head, AllWrites(r));
      k'.f == AllFrom(tree, k.tasks[r].commit) && k'.tasks == k.tasks - {r} && k'.nexts == k.nexts
  {
    WritesRest(tree, k, k.f, head, r, Fleet.Groups);
    assert k.nexts - {r} == k.nexts;
  }

  lemma {:induction false} WritesNothing(tree: Trees, k: Side, head: Sha, r: nat, n: nat)
    requires !UnderWay(k.tasks, r)
    ensures DoReloads(tree, k, head, WritesOf(r, n)) == k
  {
    if n > 0 {
      WritesFirst(tree, k, head, r, n);
      WritesNothing(tree, k, head, r, n - 1);
    }
  }

  lemma SwapRefused(tree: Trees, k: Side, head: Sha, r: nat)
    requires UnderWay(k.tasks, r) && !Loads(tree, k.tasks[r].commit) && r !in k.nexts
    ensures var k' := DoReloads(tree, k, head, AllWrites(r));
      k'.f == k.f && k'.tasks == k.tasks - {r} && k'.nexts == k.nexts
  {
    WritesFirst(tree, k, head, r, 5);
    WritesNothing(tree, DoReload(tree, k, head, Writes(r)), head, r, 4);
    assert k.nexts - {r} == k.nexts;
  }

  // ---------------------------------------------------------------- late and straddling reloads

  /** A start on HEAD with nothing recorded and every answer good. */
  const BOOT := BootEnv(0, true, true, true, None, true, true, true)

  function Quiet(a: Action): Moment {
    Gate(Completes(a), NO_RELOADS)
  }

  /** The operator's switch to a commit that loads. */
  function ForceTo(sha: Sha): Action {
    OperatorForce(sha, true, SwitchEnv(None, true, true, ApplyEnv(true, true, true, true)))
  }

  lemma {:induction false} RunConcat(tree: Trees, j: Joint, a: seq<Moment>, b: seq<Moment>)
    ensures JointRun(tree, j, a + b) == JointRun(tree, JointRun(tree, j, a), b)
    decreases |a|
  {
    if a == [] {
      assert a + b == b;
    } else {
      assert (a + b)[1..] == a[1..] + b;
      RunConcat(tree, JointStep(tree, j, a[0]), a[1..], b);
    }
  }

  lemma RunMore(tree: Trees, j: Joint, moments: seq<Moment>, m: Moment)
    ensures JointRun(tree, j, moments + [m]) == JointStep(tree, JointRun(tree, j, moments), m)
  {
    RunConcat(tree, j, moments, [m]);
    assert [m][1..] == [];
  }

  /** Up, with tree and record at `head`, the given fleet, and these threads and half-made swaps. */
  predicate Stage(j: Joint, head: Sha, f: Held, tasks: map<nat, Task>, nexts: map<nat, Store>) {
    && j.s.up && j.s.world.head == head && j.s.world.mem.serving == head
    && j.f == f && j.s.tasks == tasks && j.nexts == nexts
  }

  lemma StartsUp(tree: Trees, a: Sha)
    ensures Stage(JointStep(tree, Before(a), Quiet(Start(BOOT))), a, UNLOADED, map[], map[])
  {
    BootServesHead(Fresh(a).world);
  }

  lemma BootServesHead(w: World)
    requires w.disk.None?
    ensures After(w, Boot(BOOT)).head == After(w, Boot(BOOT)).mem.serving == w.head
  {
    var start := Restarted(w, 0);
    assert SettleSteps(start, BOOT) == [Persisted(Serving(start, w.head, false), true)];
  }

  lemma ReadsHead(tree: Trees, j: Joint, t: nat, head: Sha, f: Held)
    requires Stage(j, head, f, map[], map[])
    ensures Stage(JointStep(tree, j, Quiet(WatcherReads(t))), head, f, map[t := Reloading(head)], map[])
  {
  }

  lemma SwapsIn(tree: Trees, j: Joint, t: nat, head: Sha, f: Held, read: Sha)
    requires Stage(j, head, f, map[t := Reloading(read)], map[]) && Loads(tree, read)
    ensures Stage(JointStep(tree, j, Quiet(WatcherSwaps(t, true))), head, AllFrom(tree, read), map[], map[])
  {
    SwapAlone(tree, SideOf(j), head, t);
    assert map[t := Reloading(read)] - {t} == map[];
  }

  lemma WritesOne(tree: Trees, j: Joint, t: nat, head: Sha, f: Held, read: Sha, nexts: map<nat, Store>, base: Held)
    requires Stage(j, head, f, map[t := Reloading(read)], nexts) && Loads(tree, read) && nexts.Keys <= {t}
    requires f == PartFrom(tree, base, read, GetOr(nexts, t, Fleet.Groups))
    ensures var store := GetOr(nexts, t, Fleet.Groups);
      if Next(store).Some?
      then Stage(JointStep(tree, j, Idle(Writes(t))), head, PartFrom(tree, base, read, Next(store).value),
                 map[t := Reloading(read)], map[t := Next(store).value])
      else Stage(JointStep(tree, j, Idle(Writes(t))), head, AllFrom(tree, read), map[], map[])
  {
    var store := GetOr(nexts, t, Fleet.Groups);
    WriteStep(tree, SideOf(j), base, head, t, store);
    assert map[t := Reloading(read)] - {t} == map[] && nexts - {t} == map[];
    assert Next(store).Some? ==> nexts[t := Next(store).value] == map[t := Next(store).value];
  }

  lemma ForcesTo(tree: Trees, j: Joint, b: Sha, head: Sha, f: Held, tasks: map<nat, Task>, nexts: map<nat, Store>)
    requires Stage(j, head, f, tasks, nexts) && Loads(tree, b)
    ensures Stage(JointStep(tree, j, Quiet(ForceTo(b))), b, AllFrom(tree, b), tasks, nexts)
  {
    var op, w := Force(b, true, ForceTo(b).env), j.s.world;
    SwitchEnds(w, op);
    ForceLoads(tree, SideOf(j), w, b);
    assert OpOf(j.s, ForceTo(b)) == Some(op) && TasksAfter(j.s, ForceTo(b)) == tasks;
  }

  lemma ForceLoads(tree: Trees, k: Side, w: World, b: Sha)
    requires Loads(tree, b)
    ensures var op := Force(b, true, ForceTo(b).env);
      var k' := Replay(tree, k, w.head, Steps(w, op), 0, LoadPoints(w, op), NO_RELOADS);
      k'.f == AllFrom(tree, b) && k'.tasks == k.tasks && k'.nexts == k.nexts
  {
    var op := Force(b, true, ForceTo(b).env);
    MoveEndsInLoad(w, op);
    MoveHeads(w, op);
    ReplayMove(tree, k, w.head, Steps(w, op));
  }

  /** The first load, and a second reload that has read the first commit. */
  function FirstMoments(): seq<Moment> {
    [Quiet(Start(BOOT))] + [Quiet(WatcherReads(0))] + [Quiet(WatcherSwaps(0, true))] + [Quiet(WatcherReads(1))]
  }

  lemma FirstStage(tree: Trees, a: Sha)
    requires Loads(tree, a)
    ensures Stage(JointRun(tree, Before(a), FirstMoments()), a, AllFrom(tree, a), map[1 := Reloading(a)], map[])
  {
    var none: seq<Moment> := [];
    var m1 := none + [Quiet(Start(BOOT))];
    RunMore(tree, Before(a), none, Quiet(Start(BOOT)));
    StartsUp(tree, a);
    assert m1 == [Quiet(Start(BOOT))];
    var m2 := m1 + [Quiet(WatcherReads(0))];
    RunMore(tree, Before(a), m1, Quiet(WatcherReads(0)));
    ReadsHead(tree, JointRun(tree, Before(a), m1), 0, a, UNLOADED);
    var m3 := m2 + [Quiet(WatcherSwaps(0, true))];
    RunMore(tree, Before(a), m2, Quiet(WatcherSwaps(0, true)));
    SwapsIn(tree, JointRun(tree, Before(a), m2), 0, a, UNLOADED, a);
    RunMore(tree, Before(a), m3, Quiet(WatcherReads(1)));
    ReadsHead(tree, JointRun(tree, Before(a), m3), 1, a, AllFrom(tree, a));
  }

  /**
    A run that the code allows: a reload reads a, the gate moves the tree to b and loads b, and the
    reload then swaps in what it read. Tree and record say b, b loads, and the fleet is a's.
   */
  lemma LateSwapServesOldCommit(tree: Trees, a: Sha, b: Sha)
    requires a != b && Loads(tree, a) && Loads(tree, b)
    ensures var j := JointRun(tree, Before(a), FirstMoments() + [Quiet(ForceTo(b))] + [Quiet(WatcherSwaps(1, true))]);
      && j.s.up && j.s.world.head == j.s.world.mem.serving == b && Fleet.Clean(tree(b))
      && j.f.fleet == Fleet.Whole(tree(a))
  {
    FirstStage(tree, a);
    var m1 := FirstMoments() + [Quiet(ForceTo(b))];
    RunMore(tree, Before(a), FirstMoments(), Quiet(ForceTo(b)));
    ForcesTo(tree, JointRun(tree, Before(a), FirstMoments()), b, a, AllFrom(tree, a), map[1 := Reloading(a)], map[]);
    RunMore(tree, Before(a), m1, Quiet(WatcherSwaps(1, true)));
    SwapsIn(tree, JointRun(tree, Before(a), m1), 1, b, AllFrom(tree, b), a);
  }

  /**
    And another: the reload has written two stores when the gate moves to b and loads b whole, and
    then writes the rest. The fleet has the groups and schedules of b and the hooks and managers of a.
   */
  lemma StraddlingReloadMixes(tree: Trees, a: Sha, b: Sha)
    requires Loads(tree, a) && Loads(tree, b)
    ensures var half := FirstMoments() + [Idle(Writes(1))] + [Idle(Writes(1))] + [Quiet(ForceTo(b))];
      var j := JointRun(tree, Before(a), half + [Idle(Writes(1))] + [Idle(Writes(1))] + [Idle(Writes(1))]);
      var wa, wb := Fleet.Whole(tree(a)), Fleet.Whole(tree(b));
      && j.s.up && j.nexts == map[] && j.s.world.head == j.s.world.mem.serving == b
      && j.f.fleet == Fleet.Serving(wb.groups, wb.schedules, wa.hooks, wa.managers, wa.supervised)
  {
    StraddlingHalf(tree, a, b);
    var half := FirstMoments() + [Idle(Writes(1))] + [Idle(Writes(1))] + [Quiet(ForceTo(b))];
    StraddlingRest(tree, JointRun(tree, Before(a), half), a, b);
    RunMore(tree, Before(a), half, Idle(Writes(1)));
    RunMore(tree, Before(a), half + [Idle(Writes(1))], Idle(Writes(1)));
    RunMore(tree, Before(a), half + [Idle(Writes(1))] + [Idle(Writes(1))], Idle(Writes(1)));
  }

  lemma StraddlingHalf(tree: Trees, a: Sha, b: Sha)
    requires Loads(tree, a) && Loads(tree, b)
    ensures var half := FirstMoments() + [Idle(Writes(1))] + [Idle(Writes(1))] + [Quiet(ForceTo(b))];
      Stage(JointRun(tree, Before(a), half), b, AllFrom(tree, b), map[1 := Reloading(a)], map[1 := Fleet.Hooks])
  {
    var w, whole, tasks := Idle(Writes(1)), AllFrom(tree, a), map[1 := Reloading(a)];
    FirstStage(tree, a);
    var m1 := FirstMoments() + [w];
    RunMore(tree, Before(a), FirstMoments(), w);
    WritesOne(tree, JointRun(tree, Before(a), FirstMoments()), 1, a, whole, a, map[], whole);
    var m2 := m1 + [w];
    RunMore(tree, Before(a), m1, w);
    var p1 := PartFrom(tree, whole, a, Fleet.Schedules);
    WritesOne(tree, JointRun(tree, Before(a), m1), 1, a, p1, a, map[1 := Fleet.Schedules], whole);
    RunMore(tree, Before(a), m2, Quiet(ForceTo(b)));
    var p2 := PartFrom(tree, whole, a, Fleet.Hooks);
    ForcesTo(tree, JointRun(tree, Before(a), m2), b, a, p2, tasks, map[1 := Fleet.Hooks]);
  }

  lemma StraddlingRest(tree: Trees, j: Joint, a: Sha, b: Sha)
    requires Loads(tree, a) && Loads(tree, b)
    requires Stage(j, b, AllFrom(tree, b), map[1 := Reloading(a)], map[1 := Fleet.Hooks])
    ensures var j2 := JointStep(tree, JointStep(tree, j, Idle(Writes(1))), Idle(Writes(1)));
      var j' := JointStep(tree, j2, Idle(Writes(1)));
      var wa, wb := Fleet.Whole(tree(a)), Fleet.Whole(tree(b));
      && j'.s.up && j'.nexts == map[] && j'.s.world.head == j'.s.world.mem.serving == b
      && j'.f.fleet == Fleet.Serving(wb.groups, wb.schedules, wa.hooks, wa.managers, wa.supervised)
  {
    var f1 := WriteFrom(tree, AllFrom(tree, b), a, Fleet.Hooks);
    WritesStore(tree, j, 1, b, AllFrom(tree, b), a, Fleet.Hooks);
    var j1 := JointStep(tree, j, Idle(Writes(1)));
    var f2 := WriteFrom(tree, f1, a, Fleet.Managers);
    WritesStore(tree, j1, 1, b, f1, a, Fleet.Managers);
    var j2 := JointStep(tree, j1, Idle(Writes(1)));
    WritesStore(tree, j2, 1, b, f2, a, Fleet.Supervised);
  }

  /** One write of a reload that has begun to write. */
  lemma WritesStore(tree: Trees, j: Joint, t: nat, head: Sha, f: Held, read: Sha, store: Store)
    requires Stage(j, head, f, map[t := Reloading(read)], map[t := store]) && Loads(tree, read)
    ensures var j' := JointStep(tree, j, Idle(Writes(t)));
      if Next(store).Some?
      then Stage(j', head, WriteFrom(tree, f, read, store), map[t := Reloading(read)], map[t := Next(store).value])
      else Stage(j', head, WriteFrom(tree, f, read, store), map[], map[])
  {
    assert map[t := Reloading(read)] - {t} == map[] && map[t := store] - {t} == map[];
    assert Next(store).Some? ==> map[t := store][t := Next(store).value] == map[t := Next(store).value];
  }

  // ---------------------------------------------------------------- the registry of the gate's own runs

  /** The loader's answers to an apply and to its rollback are those the two commits deserve. */
  predicate Deserved(tree: Trees, env: ApplyEnv, sha: Sha, prev: Sha) {
    env.loads == Loads(tree, sha) && env.loadsBack == Loads(tree, prev)
  }

  predicate Truthful(tree: Trees, w: World, op: Op) {
    match op
    case TrySwitch(sha, env) => Deserved(tree, env.apply, sha, w.mem.serving)
    case Force(sha, _, env) => Deserved(tree, env.apply, sha, w.mem.serving)
    case SwapRead(commit, loads) => loads == Loads(tree, commit)
    case _ => true
  }

  predicate TruthfulEvent(tree: Trees, s: State, e: Event) {
    Ready(s, e.a) && OpOf(s, e.a).Some? ==> Truthful(tree, s.world, OpOf(s, e.a).value)
  }

  predicate TruthfulRun(tree: Trees, s: State, events: seq<Event>)
    decreases |events|
  {
    events == [] || (TruthfulEvent(tree, s, events[0]) && TruthfulRun(tree, Step(s, events[0]), events[1..]))
  }

  /** The moments of a run in which each reload reads at once and swaps at once, between gate operations. */
  function Undivided(events: seq<Event>): seq<Moment> {
    seq(|events|, i requires 0 <= i < |events| => Gate(events[i], NO_RELOADS))
  }

  /** What a load of a commit leaves. */
  function Loaded(tree: Trees, f: Held, c: Sha): Held {
    if Loads(tree, c) then AllFrom(tree, c) else f
  }

  lemma EffectAlone(tree: Trees, k: Side, head: Sha, head': Sha, at: nat, points: set<nat>)
    ensures var k' := AfterEffect(tree, k, head, head', at, points, NO_RELOADS);
      && k'.tasks == k.tasks && k'.nexts == k.nexts
      && k'.f == if at in points then Loaded(tree, k.f, head') else k.f
  {
    var moved := if head' != head then TreeMoves(k) else k;
    if at in points {
      if Loads(tree, head') {
        GateLoadAlone(tree, moved, k.f, head', Fleet.Groups);
      } else {
        GateLoadRefused(tree, moved, head', Fleet.Groups);
      }
    }
  }

  lemma {:induction false} ReplayIdle(tree: Trees, k: Side, head: Sha, steps: seq<World>, at: nat)
    ensures var k' := Replay(tree, k, head, steps, at, {}, NO_RELOADS);
      k'.f == k.f && k'.tasks == k.tasks && k'.nexts == k.nexts
    decreases |steps|
  {
    if steps != [] {
      EffectAlone(tree, k, head, steps[0].head, at, {});
      var k' := AfterEffect(tree, k, head, steps[0].head, at, {}, NO_RELOADS);
      ReplayIdle(tree, k', steps[0].head, steps[1..], at + 1);
    }
  }

  /** The fleet of an undisturbed switch, load by load. */
  lemma ReplayMove(tree: Trees, k: Side, head: Sha, steps: seq<World>)
    requires |steps| == 3 || |steps| == 6
    ensures var k' := Replay(tree, k, head, steps, 0, {2, 5}, NO_RELOADS);
      var applied := Loaded(tree, k.f, steps[2].head);
      && k'.tasks == k.tasks && k'.nexts == k.nexts
      && k'.f == if |steps| == 3 then applied else Loaded(tree, applied, steps[5].head)
  {
    var k1 := ReplayThree(tree, k, head, steps, 0);
    if |steps| == 6 {
      var k2 := ReplayThree(tree, k1, steps[2].head, steps[3..], 3);
      assert steps[3..][3..] == [];
    } else {
      assert steps[3..] == [];
    }
  }

  /** Three effects, the third of which is a load. */
  lemma ReplayThree(tree: Trees, k: Side, head: Sha, steps: seq<World>, at: nat) returns (k': Side)
    requires |steps| >= 3 && (at == 0 || at == 3)
    ensures Replay(tree, k, head, steps, at, {2, 5}, NO_RELOADS)
         == Replay(tree, k', steps[2].head, steps[3..], at + 3, {2, 5}, NO_RELOADS)
    ensures k'.tasks == k.tasks && k'.nexts == k.nexts && k'.f == Loaded(tree, k.f, steps[2].head)
  {
    var k1 := AfterEffect(tree, k, head, steps[0].head, at, {2, 5}, NO_RELOADS);
    EffectAlone(tree, k, head, steps[0].head, at, {2, 5});
    var k2 := AfterEffect(tree, k1, steps[0].head, steps[1].head, at + 1, {2, 5}, NO_RELOADS);
    EffectAlone(tree, k1, steps[0].head, steps[1].head, at + 1, {2, 5});
    k' := AfterEffect(tree, k2, steps[1].head, steps[2].head, at + 2, {2, 5}, NO_RELOADS);
    EffectAlone(tree, k2, steps[1].head, steps[2].head, at + 2, {2, 5});
    assert steps[1..][1..] == steps[2..] && steps[2..][1..] == steps[3..];
    assert Replay(tree, k1, steps[0].head, steps[1..], at + 1, {2, 5}, NO_RELOADS)
        == Replay(tree, k2, steps[1].head, steps[2..], at + 2, {2, 5}, NO_RELOADS);
    assert Replay(tree, k2, steps[1].head, steps[2..], at + 2, {2, 5}, NO_RELOADS)
        == Replay(tree, k', steps[2].head, steps[3..], at + 3, {2, 5}, NO_RELOADS);
  }

  /** A switch loads from the new commit, and a rollback from the one it restored. */
  lemma MoveHeads(w: World, op: Op)
    requires MovesTree(w, op) && (|Steps(w, op)| == 3 || |Steps(w, op)| == 6)
    ensures var steps := Steps(w, op);
      && steps[2].head == op.sha
      && (|steps| == 6 <==> EndingOf(w, op.sha, op.env.apply) in {RolledBack, RolledBackUnloadable})
      && (|steps| == 6 ==> steps[5].head == w.mem.serving)
  {
  }

  /** The fleet is the whole of the registry's commit, or nothing. */
  ghost predicate IsOf(tree: Trees, f: Held, registry: Option<Sha>) {
    if registry.None? then f == UNLOADED else Loads(tree, registry.value) && f == AllFrom(tree, registry.value)
  }

  lemma OpMatchesRegistry(tree: Trees, w: World, op: Op, k: Side)
    requires Truthful(tree, w, op) && !op.Boot? && !op.SwapRead? && IsOf(tree, k.f, w.registry)
    ensures var k' := Replay(tree, k, w.head, Steps(w, op), 0, LoadPoints(w, op), NO_RELOADS);
      IsOf(tree, k'.f, After(w, op).registry) && k'.tasks == k.tasks && k'.nexts == k.nexts
  {
    if MovesTree(w, op) {
      MoveEndsInLoad(w, op);
      MoveHeads(w, op);
      ReplayMove(tree, k, w.head, Steps(w, op));
      SwitchEnds(w, op);
    } else {
      ReplayIdle(tree, k, w.head, Steps(w, op), 0);
    }
  }

  lemma BootUnloads(w: World, env: BootEnv)
    ensures After(w, Boot(env)).registry == None
  {
  }

  /** The joint run is in step with the gate's: no half-made swap, and the fleet is the registry's. */
  ghost predicate InStep(tree: Trees, j: Joint) {
    j.s.up ==> j.nexts == map[] && IsOf(tree, j.f, j.s.world.registry)
  }

  lemma SwapMatchesRegistry(tree: Trees, j: Joint, e: Event)
    requires Goes(j.s, e) && e.a.WatcherSwaps? && TruthfulEvent(tree, j.s, e) && InStep(tree, j)
    ensures var j' := JointStep(tree, j, Gate(e, NO_RELOADS));
      j'.s == Step(j.s, e) && InStep(tree, j')
  {
    var c := j.s.tasks[e.a.t].commit;
    if Loads(tree, c) {
      SwapAlone(tree, SideOf(j), j.s.world.head, e.a.t);
    } else {
      SwapRefused(tree, SideOf(j), j.s.world.head, e.a.t);
    }
  }

  lemma StepMatchesRegistry(tree: Trees, j: Joint, e: Event)
    requires TruthfulEvent(tree, j.s, e) && InStep(tree, j)
    ensures var j' := JointStep(tree, j, Gate(e, NO_RELOADS));
      j'.s == Step(j.s, e) && InStep(tree, j')
  {
    if Ready(j.s, e.a) && e.Completes? {
      if e.a.Start? {
        BootUnloads(j.s.world, e.a.boot);
      } else if e.a.WatcherSwaps? {
        SwapMatchesRegistry(tree, j, e);
      } else if e.a.WatcherReads? {
        assert j.nexts - {e.a.t} == j.nexts;
      } else if OpOf(j.s, e.a).Some? {
        OpMatchesRegistry(tree, j.s.world, OpOf(j.s, e.a).value, SideOf(j).(tasks := TasksAfter(j.s, e.a)));
      }
    }
  }

  /** Without divided reloads, the fleet is the load of the registry's commit that the gate's steps record. */
  lemma {:induction false} FleetIsRegistry(tree: Trees, j: Joint, events: seq<Event>)
    requires TruthfulRun(tree, j.s, events) && InStep(tree, j)
    ensures var j' := JointRun(tree, j, Undivided(events));
      j'.s == Run(j.s, events) && InStep(tree, j')
    decreases |events|
  {
    if events != [] {
      StepMatchesRegistry(tree, j, events[0]);
      FleetIsRegistry(tree, JointStep(tree, j, Gate(events[0], NO_RELOADS)), events[1..]);
      assert Undivided(events)[1..] == Undivided(events[1..]);
    }
  }

  /**
    In every run of the gate and its reloads, crashes, failed rollbacks and restarts included, the
    registry of a process that is up is the load of one commit that loads cleanly; and it is HEAD
    exactly when HEAD loads, under the same exact condition.
   */
  lemma RegistryIsCleanCommit(tree: Trees, head: Sha, events: seq<Event>)
    requires TruthfulRun(tree, Fresh(head), events)
    ensures var s := Run(Fresh(head), events);
      s.up && s.world.registry.Some? ==>
        && Fleet.Clean(tree(s.world.registry.value))
        && ((s.world.registry == Some(s.world.head) <==> Fleet.Clean(tree(s.world.head)))
            <==> !(Fleet.Hooks in JointRun(tree, Before(head), Undivided(events)).overtaken
                   && Fleet.Clean(tree(s.world.head))))
  {
    FleetIsRegistry(tree, Before(head), events);
    StoresAreCommits(tree, head, Undivided(events), Fleet.Hooks);
  }
}
