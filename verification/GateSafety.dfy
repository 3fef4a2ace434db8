/**
  Vouching safety and agreement of tree, record and fleet, over every run of the reload gate:
  overlapping polls and deliveries, failed writes and resets, refused loads, crashes, restarts.
 */
module GateSafety {
  import opened Basics
  import opened GateModel

  // ---------------------------------------------------------------- verdict lists

  lemma {:induction false} UnexpiredMembers(vs: seq<Verdict>, now: int)
    ensures forall v :: v in Unexpired(vs, now) <==> v in vs && now - v.seenAt < VERDICT_TTL
  {
    if vs != [] {
      UnexpiredMembers(vs[1..], now);
    }
  }

  lemma {:induction false} TrimmedMembers(vs: seq<Verdict>)
    ensures |Trimmed(vs)| == Min(|vs|, MAX_VERDICTS)
    ensures forall v :: v in Trimmed(vs) ==> v in vs
    decreases |vs|
  {
    if |vs| > MAX_VERDICTS {
      var k := Oldest(vs);
      TrimmedMembers(vs[..k] + vs[k + 1..]);
    }
  }

  /** Whatever trimming drops is no newer than anything it keeps. */
  lemma {:induction false} TrimmedKeepsNewest(vs: seq<Verdict>, dropped: Verdict, kept: Verdict)
    requires dropped in vs && dropped !in Trimmed(vs) && kept in Trimmed(vs)
    ensures dropped.seenAt <= kept.seenAt
    decreases |vs|
  {
    var k := Oldest(vs);
    var rest := vs[..k] + vs[k + 1..];
    TrimmedMembers(rest);
    if dropped in rest {
      TrimmedKeepsNewest(rest, dropped, kept);
    } else {
      assert dropped == vs[k];
      assert kept in vs;
    }
  }

  /** Pruning leaves at most the cap, only unexpired verdicts, and drops the oldest of those. */
  lemma PrunedBounds(vs: seq<Verdict>, now: int)
    ensures |Pruned(vs, now)| <= MAX_VERDICTS
    ensures forall v :: v in Pruned(vs, now) ==> v in vs && now - v.seenAt < VERDICT_TTL
    ensures forall dropped, kept | dropped in vs && dropped !in Pruned(vs, now) && kept in Pruned(vs, now) ::
      now - dropped.seenAt < VERDICT_TTL ==> dropped.seenAt <= kept.seenAt
    ensures forall v :: v in vs && now - v.seenAt < VERDICT_TTL && v !in Pruned(vs, now) ==>
      |Pruned(vs, now)| == MAX_VERDICTS
  {
    var live := Unexpired(vs, now);
    UnexpiredMembers(vs, now);
    TrimmedMembers(live);
    assert |live| <= MAX_VERDICTS ==> Trimmed(live) == live;
    forall dropped, kept | dropped in live && dropped !in Trimmed(live) && kept in Trimmed(live)
      ensures dropped.seenAt <= kept.seenAt
    {
      TrimmedKeepsNewest(live, dropped, kept);
    }
  }

  lemma {:induction false} UpsertedMembers(vs: seq<Verdict>, v: Verdict)
    ensures v in Upserted(vs, v)
    ensures forall x :: x in Upserted(vs, v) ==> x in vs || x == v
  {
    if vs != [] && vs[0].sha != v.sha {
      UpsertedMembers(vs[1..], v);
    }
  }

  lemma {:induction false} RecalledWasSeen(vs: seq<Verdict>, sha: Sha, now: int)
    requires VerdictFor(vs, sha, now).Some?
    ensures exists v :: v in vs && v.sha == sha && v.state == VerdictFor(vs, sha, now).value
  {
    if vs[0].sha == sha && now - vs[0].seenAt < VERDICT_TTL {
      assert vs[0] in vs;
    } else {
      RecalledWasSeen(vs[1..], sha, now);
      var v :| v in vs[1..] && v.sha == sha && v.state == VerdictFor(vs[1..], sha, now).value;
      assert v in vs;
    }
  }

  // ---------------------------------------------------------------- vouching

  /** A verified record names a vouched commit, and a recorded green was reported. */
  predicate RecordSafe(r: Record, greens: set<Sha>, vouched: set<Sha>) {
    && (r.verified ==> r.serving in greens || r.serving in vouched)
    && forall v :: v in r.verdicts && v.state == "success" ==> v.sha in greens
  }

  predicate WorldSafe(w: World, greens: set<Sha>, vouched: set<Sha>) {
    RecordSafe(w.mem, greens, vouched) && (w.disk.Some? ==> RecordSafe(w.disk.value, greens, vouched))
  }

  predicate TasksSafe(tasks: map<nat, Task>, greens: set<Sha>) {
    forall t :: t in tasks && tasks[t].Switching? ==> tasks[t].sha in greens
  }

  predicate Safe(s: State) {
    WorldSafe(s.world, s.greens, s.vouched) && TasksSafe(s.tasks, s.greens)
  }

  /** The operation switches only to a commit somebody vouched for. */
  predicate Licensed(op: Op, greens: set<Sha>, vouched: set<Sha>) {
    match op
    case TrySwitch(sha, _) => sha in greens
    case Force(sha, _, _) => sha in greens || sha in vouched
    case SaveVerdict(sha, state, _, _) => state == "success" ==> sha in greens
    case _ => true
  }

  predicate AllSafe(ws: seq<World>, greens: set<Sha>, vouched: set<Sha>) {
    forall i :: 0 <= i < |ws| ==> WorldSafe(ws[i], greens, vouched)
  }

  lemma ApplySafe(w: World, sha: Sha, prev: Sha, prevVerified: bool, env: ApplyEnv, greens: set<Sha>, vouched: set<Sha>)
    requires WorldSafe(w, greens, vouched) && (prevVerified ==> prev in greens || prev in vouched)
    ensures AllSafe(ApplySteps(w, sha, prev, prevVerified, env), greens, vouched)
  {
  }

  lemma RecordStepsSafe(
    moved: World, sha: Sha, prev: Sha, prevVerified: bool, env: SwitchEnv, greens: set<Sha>, vouched: set<Sha>)
    requires WorldSafe(moved, greens, vouched) && (prevVerified ==> prev in greens || prev in vouched)
    ensures AllSafe(RecordSteps(moved, sha, prev, prevVerified, env), greens, vouched)
  {
    ApplySafe(Persisted(moved, env.saves), sha, prev, prevVerified, env.apply, greens, vouched);
  }

  lemma SwitchSafe(w: World, sha: Sha, env: SwitchEnv, greens: set<Sha>, vouched: set<Sha>)
    requires WorldSafe(w, greens, vouched) && sha in greens
    ensures AllSafe(SwitchSteps(w, sha, env), greens, vouched)
  {
    if Moves(w, sha, env) {
      var moved := AfterSwitch(Serving(w.(head := sha), sha, true), sha, env.commits.value);
      RecordStepsSafe(moved, sha, w.mem.serving, w.mem.verified, env, greens, vouched);
    }
  }

  lemma ForceSafe(w: World, sha: Sha, clearPending: bool, env: SwitchEnv, greens: set<Sha>, vouched: set<Sha>)
    requires WorldSafe(w, greens, vouched) && (sha in greens || sha in vouched)
    ensures AllSafe(ForceSteps(w, sha, clearPending, env), greens, vouched)
  {
    if env.resets {
      var serving := Serving(w.(head := sha), sha, true);
      var moved := if clearPending || w.mem.pending == sha then Pending(serving, "", "") else serving;
      RecordStepsSafe(moved, sha, w.mem.serving, w.mem.verified, env, greens, vouched);
    }
  }

  lemma BootSafe(w: World, env: BootEnv, greens: set<Sha>, vouched: set<Sha>)
    requires WorldSafe(w, greens, vouched)
    ensures AllSafe(BootSteps(w, env), greens, vouched)
  {
    var record := if w.disk.Some? then w.disk.value else EMPTY_RECORD;
    PrunedBounds(record.verdicts, env.now);
    var start := Restarted(w, env.now);
    assert WorldSafe(start, greens, vouched);
    assert AllSafe(SettleSteps(start, env), greens, vouched);
  }

  lemma OpSafe(w: World, op: Op, greens: set<Sha>, vouched: set<Sha>)
    requires WorldSafe(w, greens, vouched) && Licensed(op, greens, vouched)
    ensures AllSafe(Steps(w, op), greens, vouched)
  {
    match op {
      case SaveVerdict(sha, state, now, saves) =>
        UpsertedMembers(w.mem.verdicts, Verdict(sha, state, now));
        PrunedBounds(Upserted(w.mem.verdicts, Verdict(sha, state, now)), now);
      case TrySwitch(sha, env) => SwitchSafe(w, sha, env, greens, vouched);
      case Force(sha, clearPending, env) => ForceSafe(w, sha, clearPending, env, greens, vouched);
      case Boot(env) => BootSafe(w, env, greens, vouched);
      case _ =>
    }
  }

  lemma TasksStaySafe(s: State, a: Action)
    requires Safe(s) && Ready(s, a)
    ensures TasksSafe(TasksAfter(s, a), GreensAfter(s, a))
  {
    if a.Recall? {
      var tip := s.tasks[a.t].tip;
      if VerdictFor(s.world.mem.verdicts, tip, a.now).Some? {
        RecalledWasSeen(s.world.mem.verdicts, tip, a.now);
      }
    }
  }

  lemma EffectsSafe(s: State, a: Action)
    requires Safe(s) && Ready(s, a)
    ensures AllSafe(Effects(s, a), GreensAfter(s, a), VouchedAfter(s, a))
  {
    var op := OpOf(s, a);
    if op.Some? {
      OpSafe(s.world, op.value, GreensAfter(s, a), VouchedAfter(s, a));
    }
  }

  lemma StepSafe(s: State, e: Event)
    requires Safe(s)
    ensures Safe(Step(s, e))
  {
    if Ready(s, e.a) {
      EffectsSafe(s, e.a);
      TasksStaySafe(s, e.a);
    }
  }

  lemma {:induction false} RunSafe(s: State, events: seq<Event>)
    requires Safe(s)
    ensures Safe(Run(s, events))
    decreases |events|
  {
    if events != [] {
      StepSafe(s, events[0]);
      RunSafe(Step(s, events[0]), events[1..]);
    }
  }

  /**
    Vouching safety: whatever happens, including overlapping polls, failed writes, crashes
    between any two effects and restarts, `verified` in memory and on disk is true only for a
    commit that was reported green or that an operator forced.
   */
  lemma VouchingSafety(head: Sha, events: seq<Event>)
    ensures var s := Run(Fresh(head), events);
      && (s.world.mem.verified ==> s.world.mem.serving in s.greens + s.vouched)
      && (s.world.disk.Some? && s.world.disk.value.verified ==> s.world.disk.value.serving in s.greens + s.vouched)
  {
    RunSafe(Fresh(head), events);
  }

  // ---------------------------------------------------------------- automatic paths

  predicate Automatic(a: Action) {
    !a.OperatorForce? && !a.OperatorPick? && !a.Start?
  }

  /** Every record the switch passes through serves the new commit or the one it replaces. */
  lemma SwitchServes(w: World, sha: Sha, env: SwitchEnv)
    ensures forall i :: 0 <= i < |SwitchSteps(w, sha, env)| ==>
      SwitchSteps(w, sha, env)[i].mem.serving in {sha, w.mem.serving}
  {
  }

  /**
    Once up, no delivery, poll or watcher reload makes the gate serve anything but a commit
    reported green or the one it already served, at any effect in between as at the end.
   */
  lemma AutomaticServesGreen(head: Sha, events: seq<Event>, a: Action)
    ensures var s := Run(Fresh(head), events);
      Ready(s, a) && Automatic(a) ==>
        forall i :: 0 <= i < |Effects(s, a)| ==>
          Effects(s, a)[i].mem.serving == s.world.mem.serving || Effects(s, a)[i].mem.serving in s.greens
  {
    var s := Run(Fresh(head), events);
    RunSafe(Fresh(head), events);
    if Ready(s, a) && a.Switch? {
      SwitchServes(s.world, s.tasks[a.t].sha, a.env);
    }
  }

  // ---------------------------------------------------------------- tree, record and fleet

  /** The recorded serving commit is empty or checked out. */
  predicate TreeAgrees(w: World) {
    w.mem.serving == "" || w.mem.serving == w.head
  }

  /** How a switch that moved the tree can end. */
  datatype Ending = AppliedNew | RolledBack | RolledBackUnloadable | StuckOnNew

  function EndingOf(w: World, sha: Sha, env: ApplyEnv): Ending {
    if env.loads then AppliedNew
    else if w.mem.serving == "" || w.mem.serving == sha || !env.resetsBack then StuckOnNew
    else if env.loadsBack then RolledBack
    else RolledBackUnloadable
  }

  predicate MovesTree(w: World, op: Op) {
    (op.TrySwitch? && Moves(w, op.sha, op.env)) || (op.Force? && op.env.resets)
  }

  /** The end of a switch, seen from the world in which it was recorded. */
  predicate EndsAs(ending: Ending, f: World, moved: World, prev: Sha, prevVerified: bool) {
    match ending
    case AppliedNew =>
      && f.mem.serving == moved.mem.serving && f.head == moved.head
      && f.registry == Some(moved.head) && f.mem.verified == moved.mem.verified
    case RolledBack => f.mem.serving == f.head == prev && f.registry == Some(prev) && f.mem.verified == prevVerified
    case RolledBackUnloadable =>
      f.mem.serving == f.head == prev && f.registry == moved.registry && f.mem.verified == prevVerified
    case StuckOnNew =>
      && f.mem.serving == moved.mem.serving && f.head == moved.head
      && f.registry == moved.registry && f.mem.verified == moved.mem.verified
  }

  lemma RecordStepsEnd(w: World, reset: World, moved: World, sha: Sha, env: SwitchEnv)
    ensures var f := Last(w, [reset] + RecordSteps(moved, sha, w.mem.serving, w.mem.verified, env));
      EndsAs(EndingOf(w, sha, env.apply), f, moved, w.mem.serving, w.mem.verified)
  {
    var saved := Persisted(moved, env.saves);
    var applies := ApplySteps(saved, sha, w.mem.serving, w.mem.verified, env.apply);
    var steps := [reset] + ([saved] + applies);
    assert steps[|steps| - 1] == applies[|applies| - 1];
  }

  lemma MovedEnds(w: World, op: Op)
    requires MovesTree(w, op)
    ensures exists moved: World ::
      && moved.mem.serving == moved.head == op.sha && moved.mem.verified && moved.registry == w.registry
      && EndsAs(EndingOf(w, op.sha, op.env.apply), After(w, op), moved, w.mem.serving, w.mem.verified)
  {
    var reset := w.(head := op.sha);
    var serving := Serving(reset, op.sha, true);
    var moved :=
      if op.TrySwitch? then AfterSwitch(serving, op.sha, op.env.commits.value)
      else if op.clearPending || w.mem.pending == op.sha then Pending(serving, "", "") else serving;
    RecordStepsEnd(w, reset, moved, op.sha, op.env);
  }

  lemma MoveAgrees(w: World, op: Op)
    requires TreeAgrees(w) && !op.Boot?
    ensures TreeAgrees(After(w, op))
  {
    if MovesTree(w, op) {
      MovedEnds(w, op);
    }
  }

  /** Startup repairs any disagreement a crash between reset and persist left behind. */
  lemma BootAgrees(w: World, env: BootEnv)
    ensures TreeAgrees(After(w, Boot(env)))
  {
    var start := Restarted(w, env.now);
    var settle := SettleSteps(start, env);
    SettleAgrees(start, env);
    var settled := Last(start, settle);
    var steps := [start] + (settle + UnpendSteps(settled, env));
    assert Last(w, steps) == Last(settled, UnpendSteps(settled, env)) by {
      assert steps[|steps| - 1] == if UnpendSteps(settled, env) == [] then settled else UnpendSteps(settled, env)[0];
    }
  }

  lemma SettleAgrees(start: World, env: BootEnv)
    ensures TreeAgrees(Last(start, SettleSteps(start, env)))
  {
  }

  lemma {:induction false} RunAgrees(s: State, events: seq<Event>)
    requires s.up ==> TreeAgrees(s.world)
    ensures Run(s, events).up ==> TreeAgrees(Run(s, events).world)
    decreases |events|
  {
    if events != [] {
      var e := events[0];
      if Ready(s, e.a) && e.Completes? && OpOf(s, e.a).Some? {
        var op := OpOf(s, e.a).value;
        if op.Boot? {
          BootAgrees(s.world, op.boot);
        } else {
          MoveAgrees(s.world, op);
        }
      }
      RunAgrees(Step(s, e), events[1..]);
    }
  }

  /** After every completed operation and every startup the record is empty or equals HEAD. */
  lemma RecordMatchesTree(head: Sha, events: seq<Event>)
    ensures var s := Run(Fresh(head), events); s.up ==> TreeAgrees(s.world)
  {
    RunAgrees(Fresh(head), events);
  }

  /**
    A switch that moved the tree ends with tree, record and fleet on the new commit; or, when
    the load is refused and the rollback completes, all three on the commit it replaced, with
    that commit's verified flag. Only a rollback that fails leaves the fleet behind the tree.
   */
  lemma SwitchEnds(w: World, op: Op)
    requires MovesTree(w, op)
    ensures var f := After(w, op);
      match EndingOf(w, op.sha, op.env.apply)
      case AppliedNew => f.mem.serving == f.head == op.sha && f.registry == Some(op.sha) && f.mem.verified
      case RolledBack =>
        && f.mem.serving == f.head == w.mem.serving
        && f.registry == Some(w.mem.serving) && f.mem.verified == w.mem.verified
      case RolledBackUnloadable =>
        f.mem.serving == f.head == w.mem.serving && f.registry == w.registry && f.mem.verified == w.mem.verified
      case StuckOnNew => f.mem.serving == f.head == op.sha && f.registry == w.registry && f.mem.verified
  {
    MovedEnds(w, op);
  }

  /** The fleet serves the commit that is checked out, or nothing yet. */
  predicate FleetAgrees(w: World) {
    w.registry.None? || w.registry == Some(w.head)
  }

  /**
    One operation parts fleet and tree in two cases only: the gate moves to a commit that does not
    load and from which it cannot roll back, because it served none before or the reset back
    failed; or a reload swaps in a commit that it read before the tree moved on.
   */
  lemma FleetFallsBehindExactly(w: World, op: Op)
    requires TreeAgrees(w) && FleetAgrees(w) && !op.Boot?
    ensures FleetAgrees(After(w, op)) <==>
      && !(MovesTree(w, op) && EndingOf(w, op.sha, op.env.apply).StuckOnNew?
           && w.registry.Some? && w.registry != Some(op.sha))
      && !(op.SwapRead? && op.loads && op.commit != w.head)
  {
    if MovesTree(w, op) {
      SwitchEnds(w, op);
    }
  }
}
