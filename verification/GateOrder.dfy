/** Automatic deploys only move forward along the branch. */
module GateOrder {
  import opened Basics
  import opened GateModel
  import opened GateSafety

  /** RecentCommits after a fetch that saw the branch's first n commits: the newest come first. */
  function Recent(branch: seq<Sha>, n: nat): seq<Sha>
    requires n <= |branch|
  {
    seq(Min(n, FETCH_DEPTH), i requires 0 <= i < Min(n, FETCH_DEPTH) => branch[n - 1 - i])
  }

  predicate Linear(branch: seq<Sha>) {
    NoDup(branch) && "" !in branch
  }

  lemma {:induction false} FirstIndexFinds(list: seq<Sha>, s: Sha, from: nat)
    ensures FirstIndex(list, s, from) == -1 <==> s !in list
    ensures s in list ==>
      var k := FirstIndex(list, s, from) - from;
      0 <= k < |list| && list[k] == s && s !in list[..k]
  {
    if list != [] && list[0] != s {
      FirstIndexFinds(list[1..], s, from + 1);
      if s in list {
        var k := FirstIndex(list, s, from) - from;
        assert s in list[1..];
        assert list[..k] == [list[0]] + list[1..][..k - 1];
      }
    }
  }

  /** Where a commit stands on the branch, oldest first. */
  function Pos(branch: seq<Sha>, sha: Sha): int {
    FirstIndex(branch, sha, 0)
  }

  lemma PosIs(branch: seq<Sha>, k: nat)
    requires NoDup(branch) && k < |branch|
    ensures Pos(branch, branch[k]) == k
  {
    FirstIndexFinds(branch, branch[k], 0);
  }

  /**
    A commit that passes the ordering rule is on the branch and newer than the serving one,
    whether or not the serving one is still inside the fetched window.
   */
  lemma InOrderIsNewer(branch: seq<Sha>, n: nat, p: nat, sha: Sha)
    requires Linear(branch) && p < n <= |branch| && InOrder(Recent(branch, n), sha, branch[p])
    ensures sha in branch[..n] && p <= Pos(branch, sha)
  {
    var window := Recent(branch, n);
    FirstIndexFinds(window, sha, 0);
    FirstIndexFinds(window, branch[p], 0);
    var pos := IndexOf(window, sha);
    assert sha == branch[n - 1 - pos];
    PosIs(branch, n - 1 - pos);
    assert branch[..n][n - 1 - pos] == sha;
    if n - 1 - p < |window| {
      assert window[n - 1 - p] == branch[p];
      assert branch[p] in window;
      var posServing := IndexOf(window, branch[p]);
      PosIs(branch, p);
      PosIs(branch, n - 1 - posServing);
    }
  }

  /** The gate with its clone: what the remote branch holds and how much of it was fetched. */
  datatype Clone = Clone(s: State, branch: seq<Sha>, fetched: nat)

  /** The remote gains commits, or the gate acts knowing the branch's first n commits. */
  datatype Tick = Grows(more: seq<Sha>) | Acts(a: Action, n: nat)

  /** Within one process: no operator, no restart, and git reports the branch as it is. */
  predicate Honest(c: Clone, tick: Tick) {
    match tick
    case Grows(more) => Linear(c.branch + more)
    case Acts(a, n) =>
      && Automatic(a) && c.fetched <= n <= |c.branch|
      && (a.Switch? && a.env.commits.Some? ==> a.env.commits == Some(Recent(c.branch, n)))
  }

  function Tock(c: Clone, tick: Tick): Clone {
    match tick
    case Grows(more) => c.(branch := c.branch + more)
    case Acts(a, n) => Clone(Step(c.s, Completes(a)), c.branch, n)
  }

  predicate HonestRun(c: Clone, ticks: seq<Tick>)
    decreases |ticks|
  {
    ticks == [] || (Honest(c, ticks[0]) && HonestRun(Tock(c, ticks[0]), ticks[1..]))
  }

  function RunTicks(c: Clone, ticks: seq<Tick>): Clone
    decreases |ticks|
  {
    if ticks == [] then c else RunTicks(Tock(c, ticks[0]), ticks[1..])
  }

  /** The serving commit is on the part of the branch the clone has seen. */
  predicate OnBranch(c: Clone) {
    Linear(c.branch) && c.fetched <= |c.branch| && c.s.world.mem.serving in c.branch[..c.fetched]
  }

  lemma InPrefix(branch: seq<Sha>, n: nat, sha: Sha)
    requires Linear(branch) && n <= |branch|
    ensures sha in branch[..n] <==> 0 <= Pos(branch, sha) < n
  {
    FirstIndexFinds(branch, sha, 0);
    if sha in branch[..n] {
      var k :| 0 <= k < n && branch[..n][k] == sha;
      PosIs(branch, k);
    }
    if 0 <= Pos(branch, sha) < n {
      assert branch[..n][Pos(branch, sha)] == sha;
    }
  }

  lemma ActServesForward(c: Clone, a: Action, n: nat)
    requires OnBranch(c) && Honest(c, Acts(a, n))
    ensures var serving := Step(c.s, Completes(a)).world.mem.serving;
      serving in c.branch[..n] && Pos(c.branch, c.s.world.mem.serving) <= Pos(c.branch, serving)
  {
    var w := c.s.world;
    InPrefix(c.branch, c.fetched, w.mem.serving);
    InPrefix(c.branch, n, w.mem.serving);
    FirstIndexFinds(c.branch, w.mem.serving, 0);
    if Ready(c.s, a) && a.Switch? {
      var sha := c.s.tasks[a.t].sha;
      SwitchServes(w, sha, a.env);
      if Moves(w, sha, a.env) {
        InOrderIsNewer(c.branch, n, Pos(c.branch, w.mem.serving), sha);
      }
    } else {
      OnlySwitchServes(c.s, a);
    }
  }

  lemma OnlySwitchServes(s: State, a: Action)
    requires Automatic(a) && !(Ready(s, a) && a.Switch?)
    ensures Step(s, Completes(a)).world.mem.serving == s.world.mem.serving
  {
  }

  lemma GrowthKeepsPos(branch: seq<Sha>, more: seq<Sha>, n: nat, sha: Sha)
    requires Linear(branch + more) && Linear(branch) && n <= |branch| && sha in branch[..n]
    ensures sha in (branch + more)[..n] && Pos(branch + more, sha) == Pos(branch, sha)
  {
    var k :| 0 <= k < n && branch[..n][k] == sha;
    PosIs(branch, k);
    PosIs(branch + more, k);
    assert (branch + more)[..n] == branch[..n];
  }

  lemma TockForward(c: Clone, tick: Tick)
    requires OnBranch(c) && Honest(c, tick)
    ensures OnBranch(Tock(c, tick))
    ensures Pos(c.branch, c.s.world.mem.serving) <= Pos(Tock(c, tick).branch, Tock(c, tick).s.world.mem.serving)
  {
    match tick {
      case Grows(more) => GrowthKeepsPos(c.branch, more, c.fetched, c.s.world.mem.serving);
      case Acts(a, n) => ActServesForward(c, a, n);
    }
  }

  /**
    Monotone deploys: on a linear append-only branch, no sequence of deliveries and polls
    within one process ever leaves the gate serving an older commit than before.
   */
  lemma {:induction false} MonotoneDeploys(c: Clone, ticks: seq<Tick>)
    requires OnBranch(c) && HonestRun(c, ticks)
    ensures var c' := RunTicks(c, ticks);
      OnBranch(c') && Pos(c.branch, c.s.world.mem.serving) <= Pos(c'.branch, c'.s.world.mem.serving)
    decreases |ticks|
  {
    if ticks != [] {
      TockForward(c, ticks[0]);
      MonotoneDeploys(Tock(c, ticks[0]), ticks[1..]);
    }
  }
}
