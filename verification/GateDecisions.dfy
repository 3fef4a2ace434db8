/**
  What the reload gate decides, told without its own rules: which greens are deployed, what a restart
  restores, what becomes of the pending commit and of the record on disk, and what a poll does.
 */
module GateDecisions {
  import opened Basics
  import opened GateModel
  import opened GateSafety
  import opened GateOrder

  // ---------------------------------------------------------------- the ordering rule

  /** Commit a stands in the history, which lists the newest first, before b is reached. */
  predicate Ahead(commits: seq<Sha>, a: Sha, b: Sha) {
    a != "" && exists i :: 0 <= i < |commits| && commits[i] == a && b !in commits[..i + 1]
  }

  lemma AheadIsIndex(commits: seq<Sha>, a: Sha, b: Sha)
    requires b != "" && b in commits
    ensures Ahead(commits, a, b) <==> IndexOf(commits, a) != -1 && IndexOf(commits, a) < IndexOf(commits, b)
  {
    FirstIndexFinds(commits, a, 0);
    FirstIndexFinds(commits, b, 0);
    var pa, pb := IndexOf(commits, a), IndexOf(commits, b);
    if pa != -1 && pa < pb {
      assert commits[..pa + 1] <= commits[..pb];
      assert b !in commits[..pa + 1];
    }
    if Ahead(commits, a, b) {
      var i :| 0 <= i < |commits| && commits[i] == a && b !in commits[..i + 1];
      assert pa <= i < pb;
    }
  }

  /** A green passes if its commit is in the fetched history and the serving commit is not ahead of it. */
  lemma InOrderExactly(commits: seq<Sha>, sha: Sha, serving: Sha)
    ensures InOrder(commits, sha, serving) <==> sha != "" && sha in commits && !Ahead(commits, serving, sha)
  {
    FirstIndexFinds(commits, sha, 0);
    if sha != "" && sha in commits {
      AheadIsIndex(commits, serving, sha);
    }
  }

  /** On a linear branch: exactly the commits of the last hundred fetched that are not older than the serving one. */
  lemma InOrderByPosition(branch: seq<Sha>, n: nat, p: nat, q: nat)
    requires Linear(branch) && p < n <= |branch| && q < n
    ensures InOrder(Recent(branch, n), branch[q], branch[p]) <==> n - q <= 100 && p <= q
  {
    var window := Recent(branch, n);
    FirstIndexFinds(window, branch[q], 0);
    FirstIndexFinds(window, branch[p], 0);
    WindowPosition(branch, n, p);
    WindowPosition(branch, n, q);
  }

  lemma WindowPosition(branch: seq<Sha>, n: nat, k: nat)
    requires Linear(branch) && k < n <= |branch|
    ensures IndexOf(Recent(branch, n), branch[k]) == if n - k <= 100 then n - 1 - k else -1
  {
    var window := Recent(branch, n);
    FirstIndexFinds(window, branch[k], 0);
    assert branch[k] in branch;
    if n - k <= 100 {
      assert window[n - 1 - k] == branch[k];
      assert branch[k] in window;
      var i := IndexOf(window, branch[k]);
      assert branch[n - 1 - i] == branch[k];
      PosIs(branch, n - 1 - i);
      PosIs(branch, k);
    }
  }

  // ---------------------------------------------------------------- greens

  /** The green is for another commit, which the fetched history has, not behind the serving one. */
  predicate Deployable(w: World, sha: Sha, env: SwitchEnv) {
    && sha != w.mem.serving && sha != ""
    && env.commits.Some? && sha in env.commits.value && !Ahead(env.commits.value, w.mem.serving, sha)
  }

  /** Such a green, if git resets and the commit loads, is served, checked out, loaded, verified and written down. */
  lemma GreenDeploys(w: World, sha: Sha, env: SwitchEnv)
    requires Deployable(w, sha, env) && env.resets && env.apply.loads
    ensures var f := After(w, TrySwitch(sha, env));
      && f.mem.serving == f.head == sha && f.mem.verified && f.registry == Some(sha)
      && f.disk == if env.saves then Some(f.mem) else w.disk
  {
    InOrderExactly(env.commits.value, sha, w.mem.serving);
    SwitchEnds(w, TrySwitch(sha, env));
    SwitchWritten(w, TrySwitch(sha, env));
  }

  /** On a linear branch every newer commit of the last hundred is deployed by its green. */
  lemma NewerGreenDeploys(w: World, branch: seq<Sha>, n: nat, p: nat, q: nat, env: SwitchEnv)
    requires Linear(branch) && p < q < n <= |branch| && n - q <= 100 && w.mem.serving == branch[p]
    requires env.commits == Some(Recent(branch, n)) && env.resets && env.apply.loads
    ensures var f := After(w, TrySwitch(branch[q], env));
      f.mem.serving == f.head == branch[q] && f.mem.verified && f.registry == Some(branch[q])
  {
    InOrderByPosition(branch, n, p, q);
    SwitchEnds(w, TrySwitch(branch[q], env));
  }

  /** Any other green for another commit, or a failed reset, has no effect at all. */
  lemma OtherGreensIgnored(w: World, sha: Sha, env: SwitchEnv)
    requires sha != w.mem.serving && !(Deployable(w, sha, env) && env.resets)
    ensures Steps(w, TrySwitch(sha, env)) == []
  {
    if env.commits.Some? {
      InOrderExactly(env.commits.value, sha, w.mem.serving);
    }
  }

  /** A green for the serving commit verifies it, and moves nothing. */
  lemma GreenVerifiesServing(w: World, env: SwitchEnv)
    ensures var f := After(w, TrySwitch(w.mem.serving, env));
      && f.mem == w.mem.(verified := true) && f.head == w.head && f.registry == w.registry
      && (w.mem.verified ==> f == w)
      && (!w.mem.verified ==> f.disk == if env.saves then Some(f.mem) else w.disk)
  {
  }

  // ---------------------------------------------------------------- record and pending

  /** The world in which a switch is written down. */
  function Recorded(w: World, op: Op): World
    requires MovesTree(w, op)
  {
    var pending := if KeepsPending(w, op) then w.mem.pending else "";
    var state := if KeepsPending(w, op) then w.mem.pendingState else "";
    World(Record(op.sha, true, pending, state, w.mem.verdicts), w.disk, op.sha, w.registry)
  }

  /** A switch keeps a pending commit that is ahead of the one switched to; force, one that is not cleared. */
  predicate KeepsPending(w: World, op: Op)
    requires MovesTree(w, op)
  {
    if op.TrySwitch? then Ahead(op.env.commits.value, w.mem.pending, op.sha)
    else !op.clearPending && w.mem.pending != op.sha
  }

  lemma MovesThrough(w: World, op: Op)
    requires MovesTree(w, op)
    ensures Steps(w, op)
         == [w.(head := op.sha)] + RecordSteps(Recorded(w, op), op.sha, w.mem.serving, w.mem.verified, op.env)
  {
    if op.TrySwitch? {
      var commits := op.env.commits.value;
      InOrderExactly(commits, op.sha, w.mem.serving);
      AheadIsIndex(commits, w.mem.pending, op.sha);
      var serving := Serving(w.(head := op.sha), op.sha, true);
      FirstIndexFinds(commits, w.mem.pending, 0);
      assert AfterSwitch(serving, op.sha, commits) == Recorded(w, op);
    }
  }

  /** The last effect of a tree move is the last of the load that follows it, or of its rollback. */
  lemma MoveEnds(w: World, op: Op)
    requires MovesTree(w, op)
    ensures var saved := Persisted(Recorded(w, op), op.env.saves);
      var applies := ApplySteps(saved, op.sha, w.mem.serving, w.mem.verified, op.env.apply);
      applies != [] && After(w, op) == applies[|applies| - 1]
  {
    MovesThrough(w, op);
    var saved := Persisted(Recorded(w, op), op.env.saves);
    var applies := ApplySteps(saved, op.sha, w.mem.serving, w.mem.verified, op.env.apply);
    var steps := [w.(head := op.sha)] + ([saved] + applies);
    assert steps[|steps| - 1] == applies[|applies| - 1];
  }

  /** What a switch leaves pending, and on disk: the new record before the load, the old again after a rollback. */
  lemma SwitchWritten(w: World, op: Op)
    requires MovesTree(w, op)
    ensures var f, ending := After(w, op), EndingOf(w, op.sha, op.env.apply);
      && f.mem.pending == (if KeepsPending(w, op) then w.mem.pending else "")
      && f.mem.pendingState == (if KeepsPending(w, op) then w.mem.pendingState else "")
      && f.mem.verdicts == w.mem.verdicts
      && f.disk == (
           if ending in {RolledBack, RolledBackUnloadable} && op.env.apply.savesBack then Some(f.mem)
           else if op.env.saves then Some(Recorded(w, op).mem)
           else w.disk)
  {
    MoveEnds(w, op);
  }

  /** A push of another tip is held as pending; of the serving one, settles what was pending. Nothing moves. */
  lemma PushHolds(w: World, tip: Sha, saves: bool)
    ensures var f := After(w, Push(tip, saves));
      && f.head == w.head && f.registry == w.registry
      && (tip != w.mem.serving ==> f.mem == w.mem.(pending := tip, pendingState := "pending"))
      && (tip == w.mem.serving ==>
            f.mem == if w.mem.pending == "" then w.mem else w.mem.(pending := "", pendingState := ""))
      && (f.mem != w.mem ==> f.disk == if saves then Some(f.mem) else w.disk)
  {
  }

  /** A red is held for the pending commit, or for another than the serving one if none is pending. */
  lemma RedHolds(w: World, sha: Sha, state: string, saves: bool)
    ensures var f := After(w, HoldRed(sha, state, saves));
      && f.head == w.head && f.registry == w.registry
      && f.mem == (if sha == w.mem.pending || (w.mem.pending == "" && sha != w.mem.serving)
                   then w.mem.(pending := sha, pendingState := state) else w.mem)
      && (f.mem != w.mem ==> f.disk == if saves then Some(f.mem) else w.disk)
  {
  }

  // ---------------------------------------------------------------- verdicts

  lemma {:induction false} UpsertedFinds(vs: seq<Verdict>, v: Verdict)
    ensures VerdictFor(Upserted(vs, v), v.sha, v.seenAt) == Some(v.state)
    ensures |Upserted(vs, v)| == if exists x :: x in vs && x.sha == v.sha then |vs| else |vs| + 1
  {
    if vs != [] {
      if vs[0].sha != v.sha {
        UpsertedFinds(vs[1..], v);
        assert (exists x :: x in vs && x.sha == v.sha) <==> (exists x :: x in vs[1..] && x.sha == v.sha) by {
          assert vs == [vs[0]] + vs[1..];
        }
      } else {
        assert vs[0] in vs;
      }
    }
  }

  lemma {:induction false} UnexpiredFinds(vs: seq<Verdict>, sha: Sha, now: int)
    ensures VerdictFor(Unexpired(vs, now), sha, now) == VerdictFor(vs, sha, now)
  {
    if vs != [] {
      UnexpiredFinds(vs[1..], sha, now);
      var rest := Unexpired(vs[1..], now);
      if now - vs[0].seenAt < VERDICT_TTL {
        assert ([vs[0]] + rest)[1..] == rest;
      } else {
        assert Unexpired(vs, now) == rest;
      }
    }
  }

  /** Nothing is trimmed while there is room, and a recorded verdict is recalled. */
  lemma VerdictRecalled(w: World, sha: Sha, state: string, now: int, saves: bool)
    requires |w.mem.verdicts| < MAX_VERDICTS
    ensures var f := After(w, SaveVerdict(sha, state, now, saves));
      && VerdictFor(f.mem.verdicts, sha, now) == Some(state)
      && f.mem == w.mem.(verdicts := f.mem.verdicts) && f.head == w.head && f.registry == w.registry
      && f.disk == if saves then Some(f.mem) else w.disk
  {
    var vs := Upserted(w.mem.verdicts, Verdict(sha, state, now));
    UpsertedFinds(w.mem.verdicts, Verdict(sha, state, now));
    UnexpiredFinds(vs, sha, now);
    UnexpiredShorter(vs, now);
  }

  lemma {:induction false} UnexpiredShorter(vs: seq<Verdict>, now: int)
    ensures |Unexpired(vs, now)| <= |vs|
  {
    if vs != [] {
      UnexpiredShorter(vs[1..], now);
    }
  }

  // ---------------------------------------------------------------- restarts

  /** The recorded commit is checked out already, or git can bring it back. */
  predicate Restorable(w: World, env: BootEnv) {
    && w.disk.Some? && w.disk.value.serving != ""
    && ((env.readsHead && w.head == w.disk.value.serving) || (env.fetchesSha && env.resetsSha))
  }

  /** The startup fallbacks end here; a pending commit that now serves is settled and, if it can be, written down. */
  lemma BootEnds(w: World, env: BootEnv)
    ensures var start := Restarted(w, env.now);
      var settled := Last(start, SettleSteps(start, env));
      After(w, Boot(env)) ==
        if settled.mem.pending != "" && settled.mem.pending == settled.mem.serving
        then Persisted(Pending(settled, "", ""), env.savesSettled)
        else settled
  {
    var start := Restarted(w, env.now);
    var settle := SettleSteps(start, env);
    var settled := Last(start, settle);
    var unpend := UnpendSteps(settled, env);
    var steps := [start] + (settle + unpend);
    if unpend != [] {
      assert steps[|steps| - 1] == unpend[|unpend| - 1];
    } else {
      assert settle + unpend == settle;
      assert settle != [] ==> steps[|steps| - 1] == settle[|settle| - 1];
    }
  }

  /** A restart brings the last good commit back, with its verified flag, in memory and on disk. */
  lemma BootRestores(w: World, env: BootEnv)
    requires Restorable(w, env)
    ensures var f, record := After(w, Boot(env)), w.disk.value;
      && f.mem.serving == f.head == record.serving && f.mem.verified == record.verified
      && f.disk.Some? && f.disk.value.serving == record.serving && f.disk.value.verified == record.verified
      && f.mem.pending == (if record.pending == record.serving then "" else record.pending)
      && (record.pending != record.serving ==> f.disk == w.disk)
  {
    BootEnds(w, env);
  }

  /** Only if it cannot, the branch tip is served, unverified. */
  lemma BootFallsToTip(w: World, env: BootEnv)
    requires w.disk.Some? && w.disk.value.serving != "" && !Restorable(w, env) && env.tip.Some? && env.resetsTip
    ensures var f := After(w, Boot(env));
      && f.mem.serving == f.head == env.tip.value && !f.mem.verified
      && (env.saves ==> f.disk.Some? && f.disk.value.serving == env.tip.value && !f.disk.value.verified)
  {
    BootEnds(w, env);
  }

  /** And only if git fails entirely, what is checked out is, unverified; the record of the last good commit stays. */
  lemma BootServesTree(w: World, env: BootEnv)
    requires w.disk.Some? && w.disk.value.serving != "" && !Restorable(w, env) && !(env.tip.Some? && env.resetsTip)
    ensures var f := After(w, Boot(env));
      && f.head == w.head && f.mem.serving == (if env.readsHead then w.head else "") && !f.mem.verified
      && (w.disk.value.pending == "" || w.disk.value.pending != f.mem.serving ==> f.disk == w.disk)
  {
    BootEnds(w, env);
  }

  /** With nothing recorded a start serves what is checked out, unverified, and writes that down. */
  lemma BootFresh(w: World, env: BootEnv)
    requires w.disk.None? || w.disk.value.serving == ""
    ensures var f := After(w, Boot(env));
      && f.head == w.head && f.mem.serving == (if env.readsHead then w.head else "") && !f.mem.verified
      && (env.saves ==> f.disk.Some? && f.disk.value.serving == f.mem.serving && !f.disk.value.verified)
  {
    BootEnds(w, env);
  }

  // ---------------------------------------------------------------- deliveries and polls

  function Does(s: State, a: Action): State {
    Step(s, Completes(a))
  }

  predicate IdleThread(s: State, t: nat) {
    s.up && t !in s.tasks
  }

  /** A green status is deployed by its own delivery. */
  lemma GreenStatusDeploys(s: State, t: nat, sha: Sha, now: int, saves: bool, env: SwitchEnv)
    requires IdleThread(s, t) && Deployable(s.world, sha, env) && env.resets && env.apply.loads
    ensures var s' := Does(Does(s, DeliverStatus(t, sha, "success", now, saves)), Switch(t, env));
      s'.world.mem.serving == s'.world.head == sha && s'.world.mem.verified && s'.world.registry == Some(sha)
  {
    var s1 := Does(s, DeliverStatus(t, sha, "success", now, saves));
    assert s1.world.mem.serving == s.world.mem.serving && s1.tasks[t] == Switching(sha);
    GreenDeploys(s1.world, sha, env);
  }

  /** The poll's reading of a tip other than the serving commit. */
  lemma PollReads(s: State, t: nat, tip: Sha, answer: Option<string>)
    requires IdleThread(s, t) && tip != s.world.mem.serving
    ensures var s' := Does(Does(Does(s, BeginPoll(t)), Fetched(t, Some(tip))), Answered(t, answer));
      && s'.up && s'.world == s.world
      && s'.tasks == s.tasks[t := if answer.None? then PollRecall(tip) else Decided(tip, answer.value)]
  {
    var s1 := Does(s, BeginPoll(t));
    var s2 := Does(s1, Fetched(t, Some(tip)));
    assert s2.tasks == s.tasks[t := PollRead(tip)];
    var s3 := Does(s2, Answered(t, answer));
    assert s3.tasks == s.tasks[t := if answer.None? then PollRecall(tip) else Decided(tip, answer.value)];
  }

  /** A poll that reads green deploys the tip. */
  lemma GreenPollDeploys(s: State, t: nat, tip: Sha, env: SwitchEnv)
    requires IdleThread(s, t) && Deployable(s.world, tip, env) && env.resets && env.apply.loads
    ensures var s3 := Does(Does(Does(s, BeginPoll(t)), Fetched(t, Some(tip))), Answered(t, Some("success")));
      var s' := Does(s3, Switch(t, env));
      s'.world.mem.serving == s'.world.head == tip && s'.world.mem.verified && s'.world.registry == Some(tip)
  {
    PollReads(s, t, tip, Some("success"));
    GreenDeploys(s.world, tip, env);
  }

  /** A poll that reads red holds the tip as red and moves nothing, whatever was pending. */
  lemma RedPollHolds(s: State, t: nat, tip: Sha, state: string, saves: bool)
    requires IdleThread(s, t) && tip != s.world.mem.serving && (state == "failure" || state == "error")
    ensures var s3 := Does(Does(Does(s, BeginPoll(t)), Fetched(t, Some(tip))), Answered(t, Some(state)));
      var s' := Does(Does(Does(s3, Advance(t, saves)), Advance(t, saves)), Advance(t, saves));
      && s'.world.mem.serving == s.world.mem.serving && s'.world.head == s.world.head
      && s'.world.mem.pending == tip && HeldState(s'.world.mem) == state
  {
    PollReads(s, t, tip, Some(state));
    var s3 := Does(Does(Does(s, BeginPoll(t)), Fetched(t, Some(tip))), Answered(t, Some(state)));
    RedHeld(s3, t, tip, state, saves);
  }

  lemma RedHeld(s: State, t: nat, tip: Sha, state: string, saves: bool)
    requires s.up && t in s.tasks && s.tasks[t] == RedCheck(tip, state) && (state == "failure" || state == "error")
    ensures var s' := Does(Does(Does(s, Advance(t, saves)), Advance(t, saves)), Advance(t, saves));
      && s'.world.mem.serving == s.world.mem.serving && s'.world.head == s.world.head
      && s'.world.mem.pending == tip && HeldState(s'.world.mem) == state
  {
    var s1 := Does(s, Advance(t, saves));
    if !AlreadyHeld(s.world.mem, tip, state) {
      var s2 := Does(s1, Advance(t, saves));
      assert s2.tasks[t] == RedHold(tip, state) && s2.world == s.world.(mem := s.world.mem.(pending := tip));
      RedHolds(s2.world, tip, state, saves);
    }
  }

  /** A poll that reads neither holds the tip as pending and moves nothing. */
  lemma PendingPollHolds(s: State, t: nat, tip: Sha, state: string, saves: bool)
    requires IdleThread(s, t) && tip != s.world.mem.serving
    requires state != "success" && state != "failure" && state != "error"
    ensures var s3 := Does(Does(Does(s, BeginPoll(t)), Fetched(t, Some(tip))), Answered(t, Some(state)));
      var s' := Does(Does(s3, Advance(t, saves)), Advance(t, saves));
      && s'.world.mem.serving == s.world.mem.serving && s'.world.head == s.world.head
      && s'.world.mem.pending == tip && HeldState(s'.world.mem) == "pending"
  {
    PollReads(s, t, tip, Some(state));
    PendingHeld(Does(Does(Does(s, BeginPoll(t)), Fetched(t, Some(tip))), Answered(t, Some(state))), t, tip, saves);
  }

  lemma PendingHeld(s: State, t: nat, tip: Sha, saves: bool)
    requires s.up && t in s.tasks && s.tasks[t] == PendCheck(tip)
    ensures var s' := Does(Does(s, Advance(t, saves)), Advance(t, saves));
      && s'.world.mem.serving == s.world.mem.serving && s'.world.head == s.world.head
      && s'.world.mem.pending == tip && HeldState(s'.world.mem) == "pending"
  {
    var s1 := Does(s, Advance(t, saves));
    assert s1.world == s.world;
    assert !AlreadyHeld(s.world.mem, tip, "pending") ==> s1.tasks[t] == PendHold(tip);
  }

  /** A poll that cannot read falls back on the recorded verdict, and does nothing without one. */
  lemma BlindPollRecalls(s: State, t: nat, tip: Sha, now: int)
    requires IdleThread(s, t) && tip != s.world.mem.serving
    ensures var s3 := Does(Does(Does(s, BeginPoll(t)), Fetched(t, Some(tip))), Answered(t, None));
      var s' := Does(s3, Recall(t, now));
      var known := VerdictFor(s.world.mem.verdicts, tip, now);
      && s'.world == s.world
      && (known == Some("success") ==> s'.tasks == s.tasks[t := Switching(tip)])
      && (known == Some("failure") ==> s'.tasks == s.tasks[t := RedCheck(tip, "failure")])
      && (known == Some("error") ==> s'.tasks == s.tasks[t := RedCheck(tip, "error")])
      && (known.None? ==> s'.tasks == s.tasks)
  {
    PollReads(s, t, tip, None);
    assert s.tasks[t := PollRecall(tip)] - {t} == s.tasks;
  }

  /** A poll that finds the serving commit at the tip settles whatever was pending. */
  lemma CurrentPollSettles(s: State, t: nat, saves: bool)
    requires IdleThread(s, t)
    ensures var tip := s.world.mem.serving;
      var s' := Does(Does(Does(s, BeginPoll(t)), Fetched(t, Some(tip))), Advance(t, saves));
      && s'.world.mem.serving == tip && s'.world.head == s.world.head && s'.world.mem.pending == ""
  {
    var s1 := Does(s, BeginPoll(t));
    var s2 := Does(s1, Fetched(t, Some(s.world.mem.serving)));
    assert s2.tasks == s.tasks[t := PollCurrent(s.world.mem.serving)] && s2.world == s.world;
  }

  /** An operator's pick is applied if it is green with sources or overridden, and refused without a trace if not. */
  lemma PickExactly(s: State, sha: Sha, override: bool, ci: string, hasSrc: bool, clearPending: bool, env: SwitchEnv)
    requires s.up
    ensures Does(s, OperatorPick(sha, override, ci, hasSrc, clearPending, env)).world ==
      if override || (ci == "success" && hasSrc) then After(s.world, Force(sha, clearPending, env)) else s.world
  {
  }
}
