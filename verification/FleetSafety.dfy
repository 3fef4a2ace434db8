/** What every step of GateFleet keeps, and what holds of the fleet after every run. */
module FleetSafety {
  import opened Basics
  import opened GateModel
  import opened GateSafety
  import opened GateFleet
  import Fleet

  // ---------------------------------------------------------------- each store and HEAD

  /** A reload that read since the last tree move read what is checked out. */
  predicate FreshReads(k: Side, head: Sha) {
    forall r :: r in k.tasks && UnderWay(k.tasks, r) && r !in k.stale ==> k.tasks[r].commit == head
  }

  /** What holds of a store even between a tree move and the load that follows it. */
  predicate MovingAt(tree: Trees, k: Side, head: Sha, store: Store) {
    && FreshReads(k, head) && SaneAt(tree, k.f, store)
    && (store in k.overtaken ==> k.late && store in k.f.from && k.f.from[store] != head)
  }

  /** The store is settled, or a late write has put another clean commit in HEAD's place. */
  predicate SoundAt(tree: Trees, k: Side, head: Sha, store: Store) {
    MovingAt(tree, k, head, store) && (store in k.overtaken || SettledAt(tree, k.f, head, store))
  }

  lemma ReloadSound(tree: Trees, k: Side, head: Sha, w: Reload, store: Store)
    requires MovingAt(tree, k, head, store)
    ensures MovingAt(tree, DoReload(tree, k, head, w), head, store)
    ensures SoundAt(tree, k, head, store) ==> SoundAt(tree, DoReload(tree, k, head, w), head, store)
  {
    if w.Writes? && UnderWay(k.tasks, w.r) && Loads(tree, k.tasks[w.r].commit) {
      ReloadWriteSound(tree, k, head, w.r, store);
    }
  }

  lemma ReloadWriteSound(tree: Trees, k: Side, head: Sha, r: nat, store: Store)
    requires MovingAt(tree, k, head, store) && UnderWay(k.tasks, r) && Loads(tree, k.tasks[r].commit)
    ensures MovingAt(tree, ReloadWrites(tree, k, head, r), head, store)
    ensures SoundAt(tree, k, head, store) ==> SoundAt(tree, ReloadWrites(tree, k, head, r), head, store)
  {
    var k', written := ReloadWrites(tree, k, head, r), GetOr(k.nexts, r, Fleet.Groups);
    WriteSane(tree, k.f, k.tasks[r].commit, written, store);
    assert FreshReads(k', head);
    if written != store {
      assert Lookup(k'.f.from, store) == Lookup(k.f.from, store);
      assert store in k'.overtaken <==> store in k.overtaken;
    }
  }

  lemma {:induction false} ReloadsSound(tree: Trees, k: Side, head: Sha, ws: seq<Reload>, store: Store)
    requires MovingAt(tree, k, head, store)
    ensures MovingAt(tree, DoReloads(tree, k, head, ws), head, store)
    ensures SoundAt(tree, k, head, store) ==> SoundAt(tree, DoReloads(tree, k, head, ws), head, store)
    decreases |ws|
  {
    if ws != [] {
      ReloadSound(tree, k, head, ws[0], store);
      ReloadsSound(tree, DoReload(tree, k, head, ws[0]), head, ws[1..], store);
    }
  }

  lemma GateWriteSound(tree: Trees, k: Side, head: Sha, written: Store, store: Store)
    requires MovingAt(tree, k, head, store)
    ensures MovingAt(tree, GateWrites(tree, k, head, written), head, store)
    ensures written == store || SoundAt(tree, k, head, store) ==>
      SoundAt(tree, GateWrites(tree, k, head, written), head, store)
  {
    if Loads(tree, head) {
      WriteSane(tree, k.f, head, written, store);
    }
  }

  /** By the end of a gate load every store it wrote on the way is sound. */
  lemma {:induction false} GateLoadSound(
    tree: Trees, k: Side, head: Sha, from: Store, during: map<Store, seq<Reload>>, store: Store)
    requires MovingAt(tree, k, head, store) && (Rank(from) <= Rank(store) || SoundAt(tree, k, head, store))
    ensures SoundAt(tree, GateLoads(tree, k, head, from, during), head, store)
    decreases 5 - Rank(from)
  {
    var written := GateWrites(tree, k, head, from);
    var ws := GetOr(during, from, []);
    GateWriteSound(tree, k, head, from, store);
    RankInjective(from, store);
    ReloadsSound(tree, written, head, ws, store);
    if Next(from).Some? {
      GateLoadSound(tree, DoReloads(tree, written, head, ws), head, Next(from).value, during, store);
    }
  }

  lemma RankInjective(a: Store, b: Store)
    ensures Rank(a) == Rank(b) <==> a == b
    ensures Rank(a) <= 4
  {
  }

  /** One effect: a load makes the store sound, and it stays sound while HEAD stays. */
  lemma EffectSound(
    tree: Trees, k: Side, head: Sha, head': Sha, at: nat, points: set<nat>, rs: Reloads, store: Store)
    requires MovingAt(tree, k, head, store)
    ensures var k' := AfterEffect(tree, k, head, head', at, points, rs);
      && MovingAt(tree, k', head', store)
      && (at in points || (head' == head && SoundAt(tree, k, head, store)) ==> SoundAt(tree, k', head', store))
  {
    var moved := if head' != head then TreeMoves(k) else k;
    var during := GetOr(rs.during, at, map[]);
    var loaded := if at in points then GateLoads(tree, moved, head', Fleet.Groups, during) else moved;
    if at in points {
      GateLoadSound(tree, moved, head', Fleet.Groups, during, store);
    }
    ReloadsSound(tree, loaded, head', GetOr(rs.between, at, []), store);
  }

  /** While HEAD stays, a store stays sound, whatever the reloads do. */
  lemma {:induction false} ReplayStill(
    tree: Trees, k: Side, head: Sha, steps: seq<World>, at: nat, points: set<nat>, rs: Reloads, store: Store)
    requires SoundAt(tree, k, head, store) && forall i :: 0 <= i < |steps| ==> steps[i].head == head
    ensures SoundAt(tree, Replay(tree, k, head, steps, at, points, rs), head, store)
    decreases |steps|
  {
    if steps != [] {
      EffectSound(tree, k, head, head, at, points, rs, store);
      ReplayStill(tree, AfterEffect(tree, k, head, head, at, points, rs), head, steps[1..], at + 1, points, rs, store);
    }
  }

  /** Whatever happened before, a load at the last effect makes a store sound for its HEAD. */
  lemma {:induction false} ReplayEndsSound(
    tree: Trees, k: Side, head: Sha, steps: seq<World>, at: nat, points: set<nat>, rs: Reloads, store: Store)
    requires MovingAt(tree, k, head, store) && steps != [] && at + |steps| - 1 in points
    ensures SoundAt(tree, Replay(tree, k, head, steps, at, points, rs), steps[|steps| - 1].head, store)
    decreases |steps|
  {
    var head' := steps[0].head;
    var k' := AfterEffect(tree, k, head, head', at, points, rs);
    EffectSound(tree, k, head, head', at, points, rs, store);
    if |steps| > 1 {
      ReplayEndsSound(tree, k', head', steps[1..], at + 1, points, rs, store);
      assert steps[1..][|steps[1..]| - 1] == steps[|steps| - 1];
    } else {
      assert Replay(tree, k', head', steps[1..], at + 1, points, rs) == k';
    }
  }

  /** An operation that does not move the tree leaves HEAD alone at every effect. */
  lemma HeadStays(w: World, op: Op)
    requires !MovesTree(w, op) && !op.Boot?
    ensures forall i :: 0 <= i < |Steps(w, op)| ==> Steps(w, op)[i].head == w.head
  {
  }

  /** A switch has three effects, or six when it rolls back; its last one is a load. */
  lemma MoveEndsInLoad(w: World, op: Op)
    requires MovesTree(w, op)
    ensures |Steps(w, op)| == 3 || |Steps(w, op)| == 6
  {
  }

  lemma OpSound(tree: Trees, w: World, op: Op, k: Side, rs: Reloads, store: Store)
    requires SoundAt(tree, k, w.head, store) && !op.Boot?
    ensures SoundAt(tree, Replay(tree, k, w.head, Steps(w, op), 0, LoadPoints(w, op), rs), After(w, op).head, store)
  {
    if MovesTree(w, op) {
      MoveEndsInLoad(w, op);
      ReplayEndsSound(tree, k, w.head, Steps(w, op), 0, LoadPoints(w, op), rs, store);
    } else {
      HeadStays(w, op);
      ReplayStill(tree, k, w.head, Steps(w, op), 0, LoadPoints(w, op), rs, store);
    }
  }

  /** Only the watcher starts and ends reloads. */
  lemma OwnTasks(s: State, a: Action)
    requires Ready(s, a) && !a.WatcherReads? && !a.WatcherSwaps?
    ensures forall r :: UnderWay(TasksAfter(s, a), r) <==> UnderWay(s.tasks, r)
    ensures forall r :: UnderWay(s.tasks, r) ==> TasksAfter(s, a)[r] == s.tasks[r]
  {
  }

  // ---------------------------------------------------------------- loads that nothing straddles

  /** All stores were written from one commit, or none was. */
  ghost predicate Uniform(f: Held) {
    forall s, t :: Lookup(f.from, s) == Lookup(f.from, t)
  }

  ghost predicate WroteUpTo(f: Held, commit: Sha, next: Store) {
    forall s :: Rank(s) < Rank(next) ==> Lookup(f.from, s) == Some(commit)
  }

  /** While no load straddles another, at most one is writing and all before its next write is its own. */
  ghost predicate PureOk(tree: Trees, k: Side, head: Sha) {
    && (forall r :: r in k.nexts ==> UnderWay(k.tasks, r) && Loads(tree, k.tasks[r].commit))
    && (k.pure ==>
          if k.gate.Some? then k.nexts == map[] && WroteUpTo(k.f, head, k.gate.value)
          else
            && (forall r, x :: r in k.nexts && x in k.nexts ==> r == x)
            && (k.nexts == map[] ==> Uniform(k.f))
            && (forall r :: r in k.nexts ==> WroteUpTo(k.f, k.tasks[r].commit, k.nexts[r])))
  }

  lemma WroteOneMore(tree: Trees, f: Held, commit: Sha, store: Store)
    requires Loads(tree, commit) && WroteUpTo(f, commit, store)
    ensures var f' := WriteFrom(tree, f, commit, store);
      && (Next(store).Some? ==> WroteUpTo(f', commit, Next(store).value))
      && (Next(store).None? ==> Uniform(f'))
  {
    var f' := WriteFrom(tree, f, commit, store);
    forall s | Rank(s) <= Rank(store) ensures Lookup(f'.from, s) == Some(commit) {
      RankInjective(s, store);
    }
    forall s ensures Rank(s) <= 4 {
      RankInjective(s, s);
    }
  }

  lemma WriteKeepsPure(tree: Trees, k: Side, head: Sha, r: nat)
    requires PureOk(tree, k, head) && UnderWay(k.tasks, r) && Loads(tree, k.tasks[r].commit)
    ensures PureOk(tree, ReloadWrites(tree, k, head, r), head)
  {
    var k', c, store := ReloadWrites(tree, k, head, r), k.tasks[r].commit, GetOr(k.nexts, r, Fleet.Groups);
    if k'.pure {
      assert WroteUpTo(k.f, c, store);
      WroteOneMore(tree, k.f, c, store);
      assert k'.nexts.Keys <= {r};
      if Next(store).None? {
        assert k'.nexts == map[];
      }
    }
  }

  lemma ReloadKeepsPure(tree: Trees, k: Side, head: Sha, w: Reload)
    requires PureOk(tree, k, head)
    ensures PureOk(tree, DoReload(tree, k, head, w), head) && DoReload(tree, k, head, w).gate == k.gate
  {
    if w.Reads? {
      if w.r !in k.tasks {
        assert k.nexts - {w.r} == k.nexts;
      }
    } else if UnderWay(k.tasks, w.r) {
      if Loads(tree, k.tasks[w.r].commit) {
        WriteKeepsPure(tree, k, head, w.r);
      } else {
        assert k.nexts - {w.r} == k.nexts;
      }
    }
  }

  lemma {:induction false} ReloadsKeepPure(tree: Trees, k: Side, head: Sha, ws: seq<Reload>)
    requires PureOk(tree, k, head)
    ensures PureOk(tree, DoReloads(tree, k, head, ws), head) && DoReloads(tree, k, head, ws).gate == k.gate
    decreases |ws|
  {
    if ws != [] {
      ReloadKeepsPure(tree, k, head, ws[0]);
      ReloadsKeepPure(tree, DoReload(tree, k, head, ws[0]), head, ws[1..]);
    }
  }

  /** Where the gate's load is before its write of a store. */
  predicate GateAt(tree: Trees, k: Side, head: Sha, store: Store) {
    k.gate == if Loads(tree, head) && !store.Groups? then Some(store) else None
  }

  lemma GateWriteKeepsPure(tree: Trees, k: Side, head: Sha, store: Store)
    requires PureOk(tree, k, head) && GateAt(tree, k, head, store)
    ensures var k' := GateWrites(tree, k, head, store);
      && PureOk(tree, k', head)
      && k'.gate == if Loads(tree, head) then Next(store) else None
  {
    var k' := GateWrites(tree, k, head, store);
    if Loads(tree, head) && k'.pure {
      assert WroteUpTo(k.f, head, store);
      WroteOneMore(tree, k.f, head, store);
    }
  }

  lemma {:induction false} GateLoadKeepsPure(
    tree: Trees, k: Side, head: Sha, store: Store, during: map<Store, seq<Reload>>)
    requires PureOk(tree, k, head) && GateAt(tree, k, head, store)
    ensures var k' := GateLoads(tree, k, head, store, during);
      PureOk(tree, k', head) && k'.gate.None?
    decreases 5 - Rank(store)
  {
    var written := GateWrites(tree, k, head, store);
    GateWriteKeepsPure(tree, k, head, store);
    ReloadsKeepPure(tree, written, head, GetOr(during, store, []));
    if Next(store).Some? {
      var k' := DoReloads(tree, written, head, GetOr(during, store, []));
      GateLoadKeepsPure(tree, k', head, Next(store).value, during);
    }
  }

  lemma EffectKeepsPure(tree: Trees, k: Side, head: Sha, head': Sha, at: nat, points: set<nat>, rs: Reloads)
    requires PureOk(tree, k, head) && k.gate.None?
    ensures var k' := AfterEffect(tree, k, head, head', at, points, rs);
      PureOk(tree, k', head') && k'.gate.None?
  {
    var moved := if head' != head then TreeMoves(k) else k;
    assert PureOk(tree, moved, head');
    var during := GetOr(rs.during, at, map[]);
    var loaded := if at in points then GateLoads(tree, moved, head', Fleet.Groups, during) else moved;
    if at in points {
      GateLoadKeepsPure(tree, moved, head', Fleet.Groups, during);
    }
    ReloadsKeepPure(tree, loaded, head', GetOr(rs.between, at, []));
  }

  lemma {:induction false} ReplayKeepsPure(
    tree: Trees, k: Side, head: Sha, steps: seq<World>, at: nat, points: set<nat>, rs: Reloads)
    requires PureOk(tree, k, head) && k.gate.None?
    ensures var k' := Replay(tree, k, head, steps, at, points, rs);
      k'.gate.None? && PureOk(tree, k', if steps == [] then head else steps[|steps| - 1].head)
    decreases |steps|
  {
    if steps != [] {
      EffectKeepsPure(tree, k, head, steps[0].head, at, points, rs);
      var k' := AfterEffect(tree, k, head, steps[0].head, at, points, rs);
      ReplayKeepsPure(tree, k', steps[0].head, steps[1..], at + 1, points, rs);
    }
  }

  // ---------------------------------------------------------------- whole runs

  /** Every store is sound, and loads that nothing straddles leave one commit. */
  ghost predicate SideSound(tree: Trees, k: Side, head: Sha) {
    k.gate.None? && PureOk(tree, k, head) && forall store :: SoundAt(tree, k, head, store)
  }

  ghost predicate JointSound(tree: Trees, j: Joint) {
    if j.s.up then SideSound(tree, SideOf(j), j.s.world.head) else j.s.tasks == map[]
  }

  lemma ReloadsSideSound(tree: Trees, k: Side, head: Sha, ws: seq<Reload>)
    requires SideSound(tree, k, head)
    ensures SideSound(tree, DoReloads(tree, k, head, ws), head)
  {
    ReloadsKeepPure(tree, k, head, ws);
    forall store ensures SoundAt(tree, DoReloads(tree, k, head, ws), head, store) {
      assert SoundAt(tree, k, head, store);
      ReloadsSound(tree, k, head, ws, store);
    }
  }

  lemma ReloadSideSound(tree: Trees, k: Side, head: Sha, w: Reload)
    requires SideSound(tree, k, head)
    ensures SideSound(tree, DoReload(tree, k, head, w), head)
  {
    ReloadKeepsPure(tree, k, head, w);
    forall store ensures SoundAt(tree, DoReload(tree, k, head, w), head, store) {
      assert SoundAt(tree, k, head, store);
      ReloadSound(tree, k, head, w, store);
    }
  }

  lemma OpSideSound(tree: Trees, w: World, op: Op, k: Side, rs: Reloads)
    requires SideSound(tree, k, w.head) && !op.Boot?
    ensures SideSound(tree, Replay(tree, k, w.head, Steps(w, op), 0, LoadPoints(w, op), rs), After(w, op).head)
  {
    ReplayKeepsPure(tree, k, w.head, Steps(w, op), 0, LoadPoints(w, op), rs);
    forall store
      ensures SoundAt(tree, Replay(tree, k, w.head, Steps(w, op), 0, LoadPoints(w, op), rs), After(w, op).head, store)
    {
      assert SoundAt(tree, k, w.head, store);
      OpSound(tree, w, op, k, rs, store);
    }
  }

  lemma OwnSideSound(tree: Trees, j: Joint, a: Action)
    requires Ready(j.s, a) && !a.WatcherReads? && !a.WatcherSwaps? && SideSound(tree, SideOf(j), j.s.world.head)
    ensures SideSound(tree, SideOf(j).(tasks := TasksAfter(j.s, a)), j.s.world.head)
  {
    OwnTasks(j.s, a);
    var k, own, head := SideOf(j), SideOf(j).(tasks := TasksAfter(j.s, a)), j.s.world.head;
    forall r | r in k.nexts ensures UnderWay(own.tasks, r) && own.tasks[r] == k.tasks[r] {
    }
    forall store ensures SoundAt(tree, own, head, store) {
      assert SoundAt(tree, k, head, store);
    }
  }

  lemma EventSound(tree: Trees, j: Joint, e: Event, rs: Reloads)
    requires Goes(j.s, e) && JointSound(tree, j)
    ensures SideSound(tree, SideAfter(tree, j, e, rs), Step(j.s, e).world.head)
  {
    var k, a, head := SideOf(j), e.a, j.s.world.head;
    if a.WatcherReads? {
      ReloadSideSound(tree, k, head, Reads(a.t));
    } else if a.WatcherSwaps? {
      ReloadsSideSound(tree, k, head, AllWrites(a.t));
    } else {
      OwnSideSound(tree, j, a);
      if OpOf(j.s, a).Some? {
        OpSideSound(tree, j.s.world, OpOf(j.s, a).value, k.(tasks := TasksAfter(j.s, a)), rs);
      }
    }
  }

  lemma StartSound(tree: Trees, s: State)
    requires s.tasks == map[]
    ensures JointSound(tree, Unloaded(s))
  {
    forall store ensures SoundAt(tree, SideOf(Unloaded(s)), s.world.head, store) {
      match store {
        case Groups =>
        case Schedules =>
        case Hooks =>
        case Managers =>
        case Supervised =>
      }
    }
  }

  lemma StepSound(tree: Trees, j: Joint, m: Moment)
    requires JointSound(tree, j)
    ensures JointSound(tree, JointStep(tree, j, m))
  {
    match m {
      case Idle(w) =>
        if j.s.up {
          ReloadSideSound(tree, SideOf(j), j.s.world.head, w);
          assert SideOf(JointStep(tree, j, m)) == DoReload(tree, SideOf(j), j.s.world.head, w);
        }
      case Gate(e, rs) =>
        if Goes(j.s, e) {
          EventSound(tree, j, e, rs);
          assert SideOf(JointStep(tree, j, m)) == SideAfter(tree, j, e, rs);
        } else if Ready(j.s, e.a) {
          StartSound(tree, Step(j.s, e));
        }
    }
  }

  lemma {:induction false} RunSound(tree: Trees, j: Joint, moments: seq<Moment>)
    requires JointSound(tree, j)
    ensures JointSound(tree, JointRun(tree, j, moments))
    decreases |moments|
  {
    if moments != [] {
      StepSound(tree, j, moments[0]);
      RunSound(tree, JointStep(tree, j, moments[0]), moments[1..]);
    }
  }

  /**
    After any run of a process that is up, with reloads reading and writing between any two effects
    and any two writes: each store is empty or holds its part of one clean commit. And that commit is
    HEAD exactly when HEAD loads, unless a reload that read before the last tree move was the last to
    write the store, from a commit other than HEAD; then, and only then, it is not.
   */
  lemma StoresAreCommits(tree: Trees, head: Sha, moments: seq<Moment>, store: Store)
    ensures var j := JointRun(tree, Before(head), moments);
      j.s.up ==>
        if store !in j.f.from then Fleet.SameIn(j.f.fleet, Fleet.NOTHING, store)
        else
          && Fleet.Clean(tree(j.f.from[store]))
          && Fleet.SameIn(j.f.fleet, Fleet.Whole(tree(j.f.from[store])), store)
          && ((j.f.from[store] == j.s.world.head <==> Fleet.Clean(tree(j.s.world.head)))
              <==> !(store in j.overtaken && Fleet.Clean(tree(j.s.world.head))))
  {
    RunSound(tree, Before(head), moments);
    var j := JointRun(tree, Before(head), moments);
    if j.s.up {
      assert SoundAt(tree, SideOf(j), j.s.world.head, store);
    }
  }

  /** Nobody is in the middle of writing, and the last load to begin alone was not straddled. */
  predicate AtRest(j: Joint) {
    j.s.up && j.nexts == map[] && j.pure
  }

  lemma UniformIsWhole(tree: Trees, f: Held)
    requires Uniform(f) && forall store :: SaneAt(tree, f, store)
    ensures Fleet.Groups !in f.from ==> f.from == map[] && f.fleet == Fleet.NOTHING
    ensures Fleet.Groups in f.from ==>
      && Loads(tree, f.from[Fleet.Groups]) && f.fleet == Fleet.Whole(tree(f.from[Fleet.Groups]))
      && forall store :: Lookup(f.from, store) == Some(f.from[Fleet.Groups])
  {
    var first := Lookup(f.from, Fleet.Groups);
    forall s ensures Lookup(f.from, s) == first {
      assert Lookup(f.from, s) == Lookup(f.from, Fleet.Groups);
    }
    assert SaneAt(tree, f, Fleet.Groups);
    if first.Some? {
      forall s ensures Fleet.SameIn(f.fleet, Fleet.Whole(tree(first.value)), s) {
        assert SaneAt(tree, f, s) && Lookup(f.from, s) == first;
      }
      Fleet.SameEverywhere(f.fleet, Fleet.Whole(tree(first.value)));
    } else {
      forall s ensures s !in f.from && Fleet.SameIn(f.fleet, Fleet.NOTHING, s) {
        assert SaneAt(tree, f, s) && Lookup(f.from, s) == first;
      }
      Fleet.SameEverywhere(f.fleet, Fleet.NOTHING);
    }
  }

  /**
    Hence between loads that did not straddle each other the fleet is nothing, or every entity of
    one clean commit and of no other.
   */
  lemma FleetIsOneCommit(tree: Trees, head: Sha, moments: seq<Moment>)
    ensures var j := JointRun(tree, Before(head), moments);
      AtRest(j) ==>
        if Fleet.Groups !in j.f.from then j.f.fleet == Fleet.NOTHING
        else
          var c := j.f.from[Fleet.Groups];
          && (forall store :: Lookup(j.f.from, store) == Some(c))
          && Fleet.Clean(tree(c)) && j.f.fleet == Fleet.Whole(tree(c)) && Fleet.Coherent(j.f.fleet)
          && j.f.fleet.groups == tree(c).groups.value && j.f.fleet.hooks == tree(c).hooks
          && j.f.fleet.managers == j.f.fleet.supervised == tree(c).managers
          && (forall id :: id in j.f.fleet.schedules <==> id in tree(c).hooks && tree(c).hooks[id].interval > 0)
          && (forall id :: id in j.f.fleet.schedules ==> j.f.fleet.schedules[id] == tree(c).hooks[id].interval)
  {
    RunSound(tree, Before(head), moments);
    var j := JointRun(tree, Before(head), moments);
    if AtRest(j) {
      forall store ensures SaneAt(tree, j.f, store) {
        assert SoundAt(tree, SideOf(j), j.s.world.head, store);
      }
      UniformIsWhole(tree, j.f);
      if Fleet.Groups in j.f.from {
        Fleet.CleanIsCoherent(tree(j.f.from[Fleet.Groups]));
      }
    }
  }

  /** A store that was written is HEAD's exactly when HEAD loads, if no late write follows the last tree move. */
  lemma HeadUnlessLate(tree: Trees, head: Sha, moments: seq<Moment>, store: Store)
    ensures var j := JointRun(tree, Before(head), moments);
      j.s.up && !j.late && store in j.f.from ==>
        (j.f.from[store] == j.s.world.head <==> Fleet.Clean(tree(j.s.world.head)))
  {
    RunSound(tree, Before(head), moments);
    var j := JointRun(tree, Before(head), moments);
    if j.s.up {
      assert SoundAt(tree, SideOf(j), j.s.world.head, store);
    }
  }

  /** The fleet is the whole of a commit exactly if every store agrees with it where it was written from. */
  lemma WholeExactly(tree: Trees, head: Sha, moments: seq<Moment>, c: Sha)
    requires Loads(tree, c)
    ensures var j := JointRun(tree, Before(head), moments);
      j.s.up && (forall store :: store in j.f.from) ==>
        (j.f.fleet == Fleet.Whole(tree(c)) <==>
          forall store ::
            store in j.f.from && Loads(tree, j.f.from[store])
            && Fleet.SameIn(Fleet.Whole(tree(j.f.from[store])), Fleet.Whole(tree(c)), store))
  {
    RunSound(tree, Before(head), moments);
    var j := JointRun(tree, Before(head), moments);
    if j.s.up && forall store :: store in j.f.from {
      WholeIfAgreed(tree, SideOf(j), j.s.world.head, c);
    }
  }

  lemma WholeIfAgreed(tree: Trees, k: Side, head: Sha, c: Sha)
    requires Loads(tree, c) && SideSound(tree, k, head) && forall store :: store in k.f.from
    ensures k.f.fleet == Fleet.Whole(tree(c)) <==>
      forall store ::
        store in k.f.from && Loads(tree, k.f.from[store])
        && Fleet.SameIn(Fleet.Whole(tree(k.f.from[store])), Fleet.Whole(tree(c)), store)
  {
    var whole := Fleet.Whole(tree(c));
    forall store
      ensures Loads(tree, k.f.from[store])
      ensures Fleet.SameIn(k.f.fleet, Fleet.Whole(tree(k.f.from[store])), store)
      ensures Fleet.SameIn(Fleet.Whole(tree(k.f.from[store])), k.f.fleet, store)
    {
      assert SoundAt(tree, k, head, store);
      Fleet.SameInBoth(k.f.fleet, Fleet.Whole(tree(k.f.from[store])), store);
    }
    if forall store :: Fleet.SameIn(Fleet.Whole(tree(k.f.from[store])), whole, store) {
      forall store ensures Fleet.SameIn(k.f.fleet, whole, store) {
        assert Fleet.SameIn(Fleet.Whole(tree(k.f.from[store])), whole, store);
      }
      Fleet.SameEverywhere(k.f.fleet, whole);
    }
  }
}
