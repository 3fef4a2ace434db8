/**
  The Gate of internal/reloadgate: its fields and the critical sections that change them.
  HEAD, the state file and the registry are fields here too, and `log` records the world
  after each external effect, so each method is tied to the effects of its operation.
 */
module ReloadGate {
  import opened Basics
  import opened GateModel
  import opened GateOrder
  import opened GateDecisions

  datatype Status = AlreadyServing | NoHistory | IgnoredStale | ResetFailed | Refused | Reloaded

  class Gate {
    var servingSHA: Sha
    var verified: bool
    var pendingSHA: Sha
    var pendingState: string
    var verdicts: seq<Verdict>
    var disk: Option<Record>
    var head: Sha
    var registry: Option<Sha>
    ghost var log: seq<World>

    function Fields(): Record
      reads this
    {
      Record(servingSHA, verified, pendingSHA, pendingState, verdicts)
    }

    ghost function Now(): World
      reads this
    {
      World(Fields(), disk, head, registry)
    }

    /** The method had exactly these effects, in this order, and ended where they end. */
    twostate predicate Took(steps: seq<World>)
      reads this
    {
      Now() == Last(old(Now()), steps) && log == old(log) + steps
    }

    // ------------------------------------------------------------ effects

    method Persist(saves: bool)
      modifies this`disk, this`log
      ensures Now() == Persisted(old(Now()), saves) && log == old(log) + [Now()]
    {
      if saves {
        disk := Some(Fields());
      }
      log := log + [Now()];
    }

    /** git reset --hard; a failed reset leaves the tree alone. */
    method ResetTo(sha: Sha, resets: bool)
      modifies this`head, this`log
      ensures Now() == if resets then old(Now()).(head := sha) else old(Now())
      ensures log == if resets then old(log) + [Now()] else old(log)
    {
      if resets {
        head := sha;
        log := log + [Now()];
      }
    }

    /** Loads the whole fleet from HEAD, or refuses and applies nothing. */
    method Apply(loads: bool)
      modifies this`registry, this`log
      ensures Now() == Loaded(old(Now()), loads) && log == old(log) + [Now()]
    {
      if loads {
        registry := Some(head);
      }
      log := log + [Now()];
    }

    // ------------------------------------------------------------ switching

    method ApplyOrRollback(sha: Sha, prev: Sha, prevVerified: bool, env: ApplyEnv) returns (ok: bool)
      modifies this
      ensures ok == env.loads
      ensures Took(ApplySteps(old(Now()), sha, prev, prevVerified, env))
    {
      Apply(env.loads);
      if env.loads {
        return true;
      }
      if prev == "" || prev == sha {
        return false;
      }
      ResetTo(prev, env.resetsBack);
      if !env.resetsBack {
        return false;
      }
      servingSHA, verified := prev, prevVerified;
      Persist(env.savesBack);
      Apply(env.loadsBack);
      return false;
    }

    /** Records the switch already made in the fields, then loads or rolls back. */
    method PersistAndApply(sha: Sha, prev: Sha, prevVerified: bool, env: SwitchEnv) returns (ok: bool)
      modifies this
      ensures ok == env.apply.loads
      ensures Took(RecordSteps(old(Now()), sha, prev, prevVerified, env))
    {
      Persist(env.saves);
      ok := ApplyOrRollback(sha, prev, prevVerified, env.apply);
    }

    method ClearPendingUnlessNewer(sha: Sha, commits: seq<Sha>)
      modifies this`pendingSHA, this`pendingState
      ensures Now() == AfterSwitch(old(Now()), sha, commits)
    {
      var pos := FindIndex(commits, pendingSHA);
      var posS := FindIndex(commits, sha);
      if !(pendingSHA != "" && pendingSHA != sha && pos != -1 && pos < posS) {
        pendingSHA, pendingState := "", "";
      }
    }

    /** The tree move of trySwitch, once the ordering rule has accepted sha. */
    method MoveTo(sha: Sha, commits: seq<Sha>, env: SwitchEnv) returns (ok: bool)
      requires env.commits == Some(commits) && Moves(Now(), sha, env)
      modifies this
      ensures ok == env.apply.loads
      ensures Took(SwitchSteps(old(Now()), sha, env))
    {
      ResetTo(sha, true);
      ghost var reset := Now();
      var prevSHA, prevVerified := servingSHA, verified;
      servingSHA, verified := sha, true;
      ClearPendingUnlessNewer(sha, commits);
      ghost var rest := RecordSteps(Now(), sha, prevSHA, prevVerified, env);
      assert (old(log) + [reset]) + rest == old(log) + ([reset] + rest);
      ok := PersistAndApply(sha, prevSHA, prevVerified, env);
    }

    /** A green for sha: verify what is serving, or switch if the ordering rule allows it. */
    method TrySwitchTo(sha: Sha, env: SwitchEnv) returns (status: Status)
      modifies this
      ensures Took(SwitchSteps(old(Now()), sha, env))
      ensures status.AlreadyServing? <==> sha == old(servingSHA)
      ensures status.Reloaded? <==> Moves(old(Now()), sha, env) && env.apply.loads
      ensures status.Refused? <==> Moves(old(Now()), sha, env) && !env.apply.loads
      ensures status.Reloaded? ==> servingSHA == head == sha && registry == Some(sha) && verified
      ensures status.IgnoredStale? || status.NoHistory? || status.ResetFailed? ==> Now() == old(Now())
      ensures sha != old(servingSHA) ==>
        && (status.NoHistory? <==> env.commits.None?)
        && (status.IgnoredStale? <==>
              && env.commits.Some?
              && (sha == "" || sha !in env.commits.value || Ahead(env.commits.value, old(servingSHA), sha)))
        && (status.Reloaded? || status.Refused? <==> Deployable(old(Now()), sha, env) && env.resets)
    {
      if env.commits.Some? {
        InOrderExactly(env.commits.value, sha, servingSHA);
      }
      if sha == servingSHA {
        if !verified {
          verified := true;
          Persist(env.saves);
        }
        return AlreadyServing;
      }
      if env.commits.None? {
        return NoHistory;
      }
      var commits := env.commits.value;
      var posS := FindIndex(commits, sha);
      if posS == -1 {
        return IgnoredStale;
      }
      var posServing := FindIndex(commits, servingSHA);
      if posServing != -1 && posServing < posS {
        return IgnoredStale;
      }
      if !env.resets {
        return ResetFailed;
      }
      var ok := MoveTo(sha, commits, env);
      return if ok then Reloaded else Refused;
    }

    /** The operator's switch: no ordering rule, recorded as verified. */
    method ForceApply(sha: Sha, clearPending: bool, env: SwitchEnv) returns (ok: bool)
      modifies this
      ensures Took(ForceSteps(old(Now()), sha, clearPending, env))
      ensures ok <==> env.resets && env.apply.loads
      ensures ok ==> servingSHA == head == sha && registry == Some(sha) && verified
    {
      if !env.resets {
        return false;
      }
      ok := ForceTo(sha, clearPending, env);
    }

    method ForceTo(sha: Sha, clearPending: bool, env: SwitchEnv) returns (ok: bool)
      requires env.resets
      modifies this
      ensures ok == env.apply.loads
      ensures Took(ForceSteps(old(Now()), sha, clearPending, env))
    {
      var prevSHA, prevVerified := servingSHA, verified;
      ResetTo(sha, true);
      ghost var reset := Now();
      servingSHA, verified := sha, true;
      if clearPending || pendingSHA == sha {
        pendingSHA, pendingState := "", "";
      }
      ghost var rest := RecordSteps(Now(), sha, prevSHA, prevVerified, env);
      assert (old(log) + [reset]) + rest == old(log) + ([reset] + rest);
      ok := PersistAndApply(sha, prevSHA, prevVerified, env);
    }

    // ------------------------------------------------------------ bookkeeping

    method HandlePush(tip: Sha, saves: bool) returns (held: bool)
      modifies this
      ensures Took(Steps(old(Now()), Push(tip, saves))) && servingSHA == old(servingSHA) && head == old(head)
      ensures held <==> tip != servingSHA
      ensures pendingSHA == if held then tip else ""
      ensures held ==> pendingState == "pending"
    {
      if tip == servingSHA {
        if pendingSHA != "" {
          pendingSHA, pendingState := "", "";
          Persist(saves);
        }
        return false;
      }
      pendingSHA, pendingState := tip, "pending";
      Persist(saves);
      return true;
    }

    method HoldOnRed(sha: Sha, state: string, saves: bool) returns (held: bool)
      modifies this
      ensures Took(Steps(old(Now()), HoldRed(sha, state, saves))) && servingSHA == old(servingSHA) && head == old(head)
      ensures held <==> sha == old(pendingSHA) || (old(pendingSHA) == "" && sha != old(servingSHA))
      ensures held ==> pendingSHA == sha && pendingState == state
      ensures !held ==> Now() == old(Now())
    {
      if sha != pendingSHA && !(pendingSHA == "" && sha != servingSHA) {
        return false;
      }
      pendingSHA, pendingState := sha, state;
      Persist(saves);
      return true;
    }

    method RecordVerdict(sha: Sha, state: string, now: int, saves: bool)
      modifies this
      ensures Took(Steps(old(Now()), SaveVerdict(sha, state, now, saves)))
    {
      var upserted := Upsert(verdicts, Verdict(sha, state, now));
      verdicts := PruneVerdicts(upserted, now);
      Persist(saves);
    }

    // ------------------------------------------------------------ startup

    /** New and Startup: restore the last good commit, or serve what is checked out, unverified. */
    method Startup(env: BootEnv)
      modifies this
      ensures Took(BootSteps(old(Now()), env))
      ensures servingSHA == "" || servingSHA == head
      ensures Restorable(old(Now()), env) ==>
        servingSHA == head == old(disk).value.serving && verified == old(disk).value.verified
      ensures old(disk).Some? && old(disk).value.serving != "" && !Restorable(old(Now()), env) ==>
        if env.tip.Some? && env.resetsTip then servingSHA == head == env.tip.value && !verified
        else head == old(head) && servingSHA == (if env.readsHead then head else "") && !verified
    {
      ghost var start := Restarted(Now(), env.now);
      ghost var settle := SettleSteps(start, env);
      Recover(env);
      ghost var unpend := UnpendSteps(Now(), env);
      Unpend(env);
      assert (old(log) + ([start] + settle)) + unpend == old(log) + ([start] + (settle + unpend));
    }

    method Recover(env: BootEnv)
      modifies this
      ensures var start := Restarted(old(Now()), env.now); Took([start] + SettleSteps(start, env))
      ensures servingSHA == "" || servingSHA == head
      ensures Restorable(old(Now()), env) ==>
        servingSHA == head == old(disk).value.serving && verified == old(disk).value.verified
      ensures old(disk).Some? && old(disk).value.serving != "" && !Restorable(old(Now()), env) ==>
        if env.tip.Some? && env.resetsTip then servingSHA == head == env.tip.value && !verified
        else head == old(head) && servingSHA == (if env.readsHead then head else "") && !verified
    {
      Load(env.now);
      ghost var start := Now();
      SettleServing(env);
      ghost var settle := SettleSteps(start, env);
      assert (old(log) + [start]) + settle == old(log) + ([start] + settle);
    }

    /** New: the fields from the state file, the verdicts pruned. */
    method Load(now: int)
      modifies this
      ensures Took([Restarted(old(Now()), now)])
      ensures disk == old(disk) && head == old(head)
      ensures disk.Some? ==> servingSHA == disk.value.serving && verified == disk.value.verified
    {
      var record := if disk.Some? then disk.value else EMPTY_RECORD;
      servingSHA, verified, pendingSHA, pendingState :=
        record.serving, record.verified, record.pending, record.pendingState;
      verdicts := PruneVerdicts(record.verdicts, now);
      registry := None;
      log := log + [Now()];
    }

    method Unpend(env: BootEnv)
      modifies this
      ensures Took(UnpendSteps(old(Now()), env)) && servingSHA == old(servingSHA) && head == old(head)
      ensures verified == old(verified)
    {
      if pendingSHA != "" && pendingSHA == servingSHA {
        pendingSHA, pendingState := "", "";
        Persist(env.savesSettled);
      }
    }

    method SettleServing(env: BootEnv)
      modifies this
      ensures Took(SettleSteps(old(Now()), env))
      ensures servingSHA == "" || servingSHA == head
      ensures old(servingSHA) != "" ==>
        if (env.readsHead && old(head) == old(servingSHA)) || (env.fetchesSha && env.resetsSha)
        then servingSHA == head == old(servingSHA) && verified == old(verified)
        else if env.tip.Some? && env.resetsTip then servingSHA == head == env.tip.value && !verified
        else head == old(head) && servingSHA == (if env.readsHead then head else "") && !verified
    {
      if servingSHA == "" {
        servingSHA, verified := if env.readsHead then head else "", false;
        Persist(env.saves);
      } else {
        Restore(env);
      }
    }

    method Restore(env: BootEnv)
      requires servingSHA != ""
      modifies this
      ensures Took(SettleSteps(old(Now()), env))
      ensures servingSHA == "" || servingSHA == head
      ensures (env.readsHead && old(head) == old(servingSHA)) || (env.fetchesSha && env.resetsSha) ==>
        servingSHA == head == old(servingSHA) && verified == old(verified) && disk == old(disk)
      ensures !(env.readsHead && old(head) == old(servingSHA)) && !(env.fetchesSha && env.resetsSha) ==>
        if env.tip.Some? && env.resetsTip then servingSHA == head == env.tip.value && !verified
        else head == old(head) && servingSHA == (if env.readsHead then head else "") && !verified
    {
      var read := if env.readsHead then head else "";
      if env.readsHead && read == servingSHA {
        return;
      }
      if env.fetchesSha {
        ResetTo(servingSHA, env.resetsSha);
        if env.resetsSha {
          return;
        }
      }
      if env.tip.Some? {
        ResetTo(env.tip.value, env.resetsTip);
        if env.resetsTip {
          servingSHA, verified := env.tip.value, false;
          Persist(env.saves);
          return;
        }
      }
      servingSHA, verified := read, false;
      log := log + [Now()];
    }
  }

  // -------------------------------------------------------------- deliveries

  const STATUS_BRANCHES_CAP := 10

  datatype StatusPayload = StatusPayload(
    sha: Sha, state: string, context: string, branches: seq<string>, defaultBranch: string)

  datatype Delivery = Ignored | Red(sha: Sha, state: string) | Green(sha: Sha)

  function TrackedBranch(configured: string, payloadDefault: string): string {
    if configured != "" then configured else payloadDefault
  }

  /**
    handleStatus up to its switch: which deliveries reach the verdict store and the tree.
    A green whose branch list is exactly at GitHub's cap may be truncated, so it passes.
   */
  method ClassifyStatus(p: StatusPayload, context: string, configured: string) returns (d: Delivery)
    ensures d == Green(p.sha) <==>
      && p.context == context && p.sha != "" && p.state == "success"
      && (p.branches == [] || |p.branches| == STATUS_BRANCHES_CAP ||
          TrackedBranch(configured, p.defaultBranch) in p.branches)
    ensures d == Red(p.sha, p.state) <==>
      && p.context == context && p.sha != "" && (p.state == "failure" || p.state == "error")
      && (p.branches == [] || TrackedBranch(configured, p.defaultBranch) in p.branches)
    ensures d.Ignored? || d == Green(p.sha) || d == Red(p.sha, p.state)
  {
    if p.context != context || p.sha == "" || p.state == "" {
      return Ignored;
    }
    var tracked := TrackedBranch(configured, p.defaultBranch);
    var maybeTruncated := p.state == "success" && |p.branches| == STATUS_BRANCHES_CAP;
    if |p.branches| > 0 && !maybeTruncated {
      var i := 0;
      while i < |p.branches| && p.branches[i] != tracked
        invariant 0 <= i <= |p.branches| && tracked !in p.branches[..i]
      {
        i := i + 1;
      }
      if i == |p.branches| {
        assert p.branches[..i] == p.branches;
        return Ignored;
      }
    }
    if p.state == "failure" || p.state == "error" {
      return Red(p.sha, p.state);
    }
    if p.state == "success" {
      return Green(p.sha);
    }
    return Ignored;
  }

  // -------------------------------------------------------------- loops

  method FindIndex(list: seq<Sha>, s: Sha) returns (pos: int)
    ensures pos == IndexOf(list, s)
    ensures pos == -1 <==> s == "" || s !in list
    ensures pos != -1 ==> 0 <= pos < |list| && list[pos] == s && s !in list[..pos]
  {
    FirstIndexFinds(list, s, 0);
    if s == "" {
      return -1;
    }
    pos := 0;
    while pos < |list|
      invariant 0 <= pos <= |list| && s !in list[..pos]
    {
      if list[pos] == s {
        assert s in list;
        assert list[..pos] == list[..FirstIndex(list, s, 0)];
        return;
      }
      pos := pos + 1;
    }
    assert list[..pos] == list;
    pos := -1;
  }

  method Upsert(vs: seq<Verdict>, v: Verdict) returns (vs': seq<Verdict>)
    ensures vs' == Upserted(vs, v)
  {
    var i := 0;
    while i < |vs| && vs[i].sha != v.sha
      invariant 0 <= i <= |vs|
      invariant Upserted(vs, v) == vs[..i] + Upserted(vs[i..], v)
    {
      assert vs[i..][1..] == vs[i + 1..];
      i := i + 1;
    }
    if i < |vs| {
      return vs[..i] + [v] + vs[i + 1..];
    }
    return vs + [v];
  }

  lemma UnexpiredNext(vs: seq<Verdict>, i: nat, now: int, kept: seq<Verdict>)
    requires i < |vs|
    ensures kept + Unexpired(vs[i..], now)
         == (if now - vs[i].seenAt < VERDICT_TTL then kept + [vs[i]] else kept) + Unexpired(vs[i + 1..], now)
  {
    var rest := Unexpired(vs[i + 1..], now);
    assert vs[i..][1..] == vs[i + 1..];
    assert kept + ([vs[i]] + rest) == (kept + [vs[i]]) + rest;
  }

  method DropExpired(vs: seq<Verdict>, now: int) returns (kept: seq<Verdict>)
    ensures kept == Unexpired(vs, now)
  {
    kept := [];
    var i := 0;
    while i < |vs|
      invariant 0 <= i <= |vs|
      invariant Unexpired(vs, now) == kept + Unexpired(vs[i..], now)
    {
      UnexpiredNext(vs, i, now, kept);
      if now - vs[i].seenAt < VERDICT_TTL {
        kept := kept + [vs[i]];
      }
      i := i + 1;
    }
  }

  /** Drops expired verdicts, then the oldest ones until the cap holds. */
  method PruneVerdicts(vs: seq<Verdict>, now: int) returns (kept: seq<Verdict>)
    ensures kept == Pruned(vs, now)
  {
    kept := DropExpired(vs, now);
    while |kept| > MAX_VERDICTS
      invariant Pruned(vs, now) == Trimmed(kept)
      decreases |kept|
    {
      var oldest := OldestIndex(kept);
      kept := kept[..oldest] + kept[oldest + 1..];
    }
  }

  method OldestIndex(vs: seq<Verdict>) returns (oldest: nat)
    requires vs != []
    ensures oldest == Oldest(vs)
  {
    oldest := 0;
    var i := 0;
    while i < |vs|
      invariant 0 <= i <= |vs| && oldest <= i && oldest < |vs|
      invariant forall j :: 0 <= j < i ==> vs[oldest].seenAt <= vs[j].seenAt
      invariant forall j :: 0 <= j < oldest ==> vs[oldest].seenAt < vs[j].seenAt
    {
      if vs[i].seenAt < vs[oldest].seenAt {
        oldest := i;
      }
      i := i + 1;
    }
  }
}
