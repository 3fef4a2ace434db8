/** The four buckets of internal/runstore: recording a run and sweeping old ones. */
module Archive {
  import opened Basics
  import opened KeyCodec
  import opened Buckets

  datatype Run = Run(id: string, hook: string, started: nat, startedAt: Option<int>, finished: int, status: string)

  predicate Terminal(status: string) {
    status in {"success", "failure", "timeout", "error", "cancelled", "skipped"}
  }

  datatype State = State(
    metas: map<string, Run>,
    outputs: map<string, seq<string>>,
    bytime: Rows<string>,
    byhook: map<string, Rows<Summary>>)

  const EMPTY := State(map[], map[], [], map[])

  function KeyOf(r: Run): Key {
    Key(r.started, r.id)
  }

  function SummaryOf(r: Run): Summary {
    Summary(r.status, r.finished, r.startedAt)
  }

  function HookRows(a: State, hook: string): Rows<Summary> {
    GetOr(a.byhook, hook, [])
  }

  function Recorded(a: State, r: Run, output: seq<string>): State {
    State(a.metas[r.id := r],
          if output == [] then a.outputs else a.outputs[r.id := output],
          Put(a.bytime, KeyOf(r), r.hook),
          a.byhook[r.hook := Put(HookRows(a, r.hook), KeyOf(r), SummaryOf(r))])
  }

  // ---------------------------------------------------------------- sweeping

  /** The count-cap pass: per hook, everything below the newest `cap` rows, expired or not. */
  function CapVictims(byhook: map<string, Rows<Summary>>, cap: nat): set<(Key, string)> {
    set h, i | h in byhook && 0 <= i < |byhook[h]| - cap :: (byhook[h][i].0, h)
  }

  function TimeVictims(bytime: Rows<string>, cutoff: int): set<(Key, string)> {
    set row | row in ExpiredPrefix(bytime, cutoff)
  }

  /** Removes every victim of either pass from all four buckets. */
  function Removed(a: State, victims: set<(Key, string)>): State {
    var ids := set v | v in victims :: v.0.id;
    State(a.metas - ids, a.outputs - ids, Without(a.bytime, set v | v in victims :: v.0),
          map h | h in a.byhook :: Without(a.byhook[h], set v | v in victims && v.1 == h :: v.0))
  }

  function Swept(a: State, cutoff: int, cap: nat): State {
    Removed(a, TimeVictims(a.bytime, cutoff) + CapVictims(a.byhook, cap))
  }

  // ---------------------------------------------------------------- agreement

  predicate IsRow(metas: map<string, Run>, k: Key, hook: string) {
    k.id in metas && KeyOf(metas[k.id]) == k && metas[k.id].hook == hook
  }

  /** The indexes describe exactly the runs in meta, with their times, hooks and statuses. */
  ghost predicate Agree(a: State) {
    && (forall id :: id in a.metas ==> a.metas[id].id == id)
    && a.outputs.Keys <= a.metas.Keys
    && Sorted(a.bytime)
    && (forall h :: Sorted(HookRows(a, h)))
    && (forall k, h :: (k, h) in a.bytime <==> IsRow(a.metas, k, h))
    && (forall h, k, s :: (k, s) in HookRows(a, h) <==> IsRow(a.metas, k, h) && s == SummaryOf(a.metas[k.id]))
  }

  predicate Reusable(a: State, r: Run) {
    r.id in a.metas ==> a.metas[r.id].started == r.started && a.metas[r.id].hook == r.hook
  }

  lemma RecordedTimes(a: State, r: Run, k: Key, h: string)
    requires Agree(a) && Reusable(a, r)
    ensures (k, h) in Put(a.bytime, KeyOf(r), r.hook) <==> IsRow(a.metas[r.id := r], k, h)
  {
    PutMembers(a.bytime, KeyOf(r), r.hook);
    assert (k, h) in a.bytime <==> IsRow(a.metas, k, h);
  }

  lemma RecordedSummaries(a: State, r: Run, h: string, k: Key, s: Summary)
    requires Agree(a) && Reusable(a, r)
    ensures (k, s) in (if h == r.hook then Put(HookRows(a, h), KeyOf(r), SummaryOf(r)) else HookRows(a, h))
      <==> IsRow(a.metas[r.id := r], k, h) && s == SummaryOf(a.metas[r.id := r][k.id])
  {
    assert Sorted(HookRows(a, h));
    assert (k, s) in HookRows(a, h) <==> IsRow(a.metas, k, h) && s == SummaryOf(a.metas[k.id]);
    PutMembers(HookRows(a, h), KeyOf(r), SummaryOf(r));
  }

  /** Recording keeps the agreement if the id is new, or returns with the same time and hook. */
  lemma RecordAgrees(a: State, r: Run, output: seq<string>)
    requires Agree(a) && Reusable(a, r)
    ensures Agree(Recorded(a, r, output))
  {
    var a' := Recorded(a, r, output);
    PutSorted(a.bytime, KeyOf(r), r.hook);
    forall h ensures Sorted(HookRows(a', h)) {
      assert Sorted(HookRows(a, h));
      PutSorted(HookRows(a, h), KeyOf(r), SummaryOf(r));
    }
    forall k, h ensures (k, h) in a'.bytime <==> IsRow(a'.metas, k, h) {
      RecordedTimes(a, r, k, h);
    }
    forall h, k, s ensures (k, s) in HookRows(a', h) <==> IsRow(a'.metas, k, h) && s == SummaryOf(a'.metas[k.id]) {
      RecordedSummaries(a, r, h, k, s);
    }
  }

  /** An id recorded again under another time or hook leaves stale index rows behind. */
  lemma ReusedIdDisagrees(a: State, r: Run, output: seq<string>)
    requires Agree(a) && !Reusable(a, r)
    ensures !Agree(Recorded(a, r, output))
  {
    var a' := Recorded(a, r, output);
    var was := a.metas[r.id];
    var row := (KeyOf(was), SummaryOf(was));
    assert row in HookRows(a, was.hook);
    PutMembers(HookRows(a, r.hook), KeyOf(r), SummaryOf(r));
    assert row in HookRows(a', was.hook);
    assert !IsRow(a'.metas, KeyOf(was), was.hook);
  }

  /** A victim set taken from the index rows names runs by key and hook consistently. */
  lemma RemovedAgrees(a: State, victims: set<(Key, string)>)
    requires Agree(a) && forall v :: v in victims ==> IsRow(a.metas, v.0, v.1)
    ensures Agree(Removed(a, victims))
  {
    var a' := Removed(a, victims);
    var keys := set v | v in victims :: v.0;
    WithoutSorted(a.bytime, keys);
    forall k, h ensures (k, h) in a'.bytime <==> IsRow(a'.metas, k, h) {
      RemovedTimeRow(a, victims, k, h);
    }
    forall h ensures Sorted(HookRows(a', h)) {
      if h in a.byhook {
        WithoutSorted(HookRows(a, h), set v | v in victims && v.1 == h :: v.0);
      }
    }
    forall h, k, s ensures (k, s) in HookRows(a', h) <==> IsRow(a'.metas, k, h) && s == SummaryOf(a'.metas[k.id]) {
      RemovedHookRow(a, victims, h, k, s);
    }
  }

  lemma RemovedTimeRow(a: State, victims: set<(Key, string)>, k: Key, h: string)
    requires Agree(a) && forall v :: v in victims ==> IsRow(a.metas, v.0, v.1)
    ensures var a' := Removed(a, victims);
      (k, h) in a'.bytime <==> IsRow(a'.metas, k, h)
  {
    var ids, keys := set v | v in victims :: v.0.id, set v | v in victims :: v.0;
    WithoutMembers(a.bytime, keys);
    assert (k, h) in a.bytime <==> IsRow(a.metas, k, h);
    if k in keys {
      var v :| v in victims && v.0 == k;
      assert k.id in ids;
    }
    if k.id in ids {
      var v :| v in victims && v.0.id == k.id;
      assert v.0 in keys;
    }
  }

  lemma RemovedHookRow(a: State, victims: set<(Key, string)>, h: string, k: Key, s: Summary)
    requires Agree(a) && forall v :: v in victims ==> IsRow(a.metas, v.0, v.1)
    ensures var a' := Removed(a, victims);
      (k, s) in HookRows(a', h) <==> IsRow(a'.metas, k, h) && s == SummaryOf(a'.metas[k.id])
  {
    var a' := Removed(a, victims);
    var gone := set v | v in victims && v.1 == h :: v.0;
    assert (k, s) in HookRows(a, h) <==> IsRow(a.metas, k, h) && s == SummaryOf(a.metas[k.id]);
    if h in a.byhook {
      WithoutMembers(a.byhook[h], gone);
    }
    assert k in gone <==> (k, h) in victims;
    if IsRow(a.metas, k, h) {
      assert k.id in a'.metas <==> (k, h) !in victims by {
        if k.id !in a'.metas {
          var v :| v in victims && v.0.id == k.id;
        }
      }
    }
  }

  lemma VictimsAreRows(a: State, cutoff: int, cap: nat)
    requires Agree(a)
    ensures forall v :: v in TimeVictims(a.bytime, cutoff) + CapVictims(a.byhook, cap) ==> IsRow(a.metas, v.0, v.1)
  {
    ExpiredPrefixIs(a.bytime, cutoff);
    forall v | v in TimeVictims(a.bytime, cutoff) ensures IsRow(a.metas, v.0, v.1) {
      assert v in a.bytime;
      assert (v.0, v.1) in a.bytime;
    }
    forall v | v in CapVictims(a.byhook, cap) ensures IsRow(a.metas, v.0, v.1) {
      var h, i :| h in a.byhook && 0 <= i < |a.byhook[h]| - cap && v == (a.byhook[h][i].0, h);
      var row := HookRows(a, h)[i];
      assert (row.0, row.1) in HookRows(a, h);
    }
  }

  lemma SweepAgrees(a: State, cutoff: int, cap: nat)
    requires Agree(a)
    ensures Agree(Swept(a, cutoff, cap))
  {
    VictimsAreRows(a, cutoff, cap);
    RemovedAgrees(a, TimeVictims(a.bytime, cutoff) + CapVictims(a.byhook, cap));
  }

  /** Which rows of one hook are victims: the expired ones and those below the cap. */
  lemma HookVictims(a: State, cutoff: int, cap: nat, h: string, i: nat)
    requires Agree(a) && h in a.byhook && i < |a.byhook[h]|
    ensures (a.byhook[h][i].0, h) in TimeVictims(a.bytime, cutoff) + CapVictims(a.byhook, cap)
      <==> a.byhook[h][i].0.t <= cutoff || i < |a.byhook[h]| - cap
  {
    var rows := a.byhook[h];
    var k := rows[i].0;
    assert (k, rows[i].1) in HookRows(a, h);
    assert (k, h) in a.bytime;
    ExpiredPrefixIs(a.bytime, cutoff);
    var j :| 0 <= j < |a.bytime| && a.bytime[j] == (k, h);
    var expired := ExpiredPrefix(a.bytime, cutoff);
    if k.t <= cutoff {
      assert expired[j] == (k, h);
    }
    if (k, h) in CapVictims(a.byhook, cap) {
      var h', i' :| h' in a.byhook && 0 <= i' < |a.byhook[h']| - cap && (k, h) == (a.byhook[h'][i'].0, h');
      assert Sorted(HookRows(a, h));
      KeysDistinct(rows, i, i');
    }
  }

  /**
    A sweep leaves each hook exactly its newest unexpired runs, at most the cap, although the
    two victim passes overlap and the cap pass counts expired rows too.
   */
  lemma SweepKeepsNewest(a: State, cutoff: int, cap: nat, h: string)
    requires Agree(a)
    ensures var rows := HookRows(a, h); var expired := |ExpiredPrefix(rows, cutoff)|;
      && expired <= |rows|
      && (forall i :: 0 <= i < |rows| ==> (i < expired <==> rows[i].0.t <= cutoff))
      && HookRows(Swept(a, cutoff, cap), h) == rows[Max(expired, |rows| - cap)..]
      && |HookRows(Swept(a, cutoff, cap), h)| == Min(cap, |rows| - expired)
  {
    SweptHookRows(a, cutoff, cap, h);
    ExpiredPrefixIs(HookRows(a, h), cutoff);
  }

  lemma SweptHookRows(a: State, cutoff: int, cap: nat, h: string)
    requires Agree(a)
    ensures var rows := HookRows(a, h); var c := Max(|ExpiredPrefix(rows, cutoff)|, |rows| - cap);
      Sorted(rows) && 0 <= c <= |rows| && HookRows(Swept(a, cutoff, cap), h) == rows[c..]
  {
    var rows := HookRows(a, h);
    assert Sorted(rows);
    ExpiredPrefixIs(rows, cutoff);
    if h in a.byhook {
      var c := Max(|ExpiredPrefix(rows, cutoff)|, |rows| - cap);
      SweptKeys(a, cutoff, cap, h);
      WithoutPrefix(rows, SweptFrom(a, cutoff, cap, h), c);
    }
  }

  /** The keys a sweep deletes from one hook's bucket. */
  function SweptFrom(a: State, cutoff: int, cap: nat, h: string): set<Key> {
    set v | v in TimeVictims(a.bytime, cutoff) + CapVictims(a.byhook, cap) && v.1 == h :: v.0
  }

  lemma SweptKeys(a: State, cutoff: int, cap: nat, h: string)
    requires Agree(a) && h in a.byhook
    ensures var rows := a.byhook[h]; var c := Max(|ExpiredPrefix(rows, cutoff)|, |rows| - cap);
      forall i :: 0 <= i < |rows| ==> (rows[i].0 in SweptFrom(a, cutoff, cap, h) <==> i < c)
  {
    var rows := a.byhook[h];
    assert Sorted(HookRows(a, h));
    ExpiredPrefixIs(rows, cutoff);
    forall i | 0 <= i < |rows|
      ensures rows[i].0 in SweptFrom(a, cutoff, cap, h) <==> rows[i].0.t <= cutoff || i < |rows| - cap
    {
      HookVictims(a, cutoff, cap, h, i);
    }
  }

  // ---------------------------------------------------------------- whole runs

  datatype Action = Record(r: Run, output: seq<string>) | Sweep(cutoff: int)

  /** Record refuses a run that is not terminal; run ids are fresh. */
  function Step(a: State, cap: nat, action: Action): State {
    match action
    case Record(r, output) => if Terminal(r.status) && r.id !in a.metas then Recorded(a, r, output) else a
    case Sweep(cutoff) => Swept(a, cutoff, cap)
  }

  function RunAll(a: State, cap: nat, actions: seq<Action>): State
    decreases |actions|
  {
    if actions == [] then a else RunAll(Step(a, cap, actions[0]), cap, actions[1..])
  }

  /** After any sequence of records and sweeps the buckets describe the same terminal runs. */
  lemma {:induction false} ArchiveAgrees(a: State, cap: nat, actions: seq<Action>)
    requires Agree(a) && forall id :: id in a.metas ==> Terminal(a.metas[id].status)
    ensures var a' := RunAll(a, cap, actions);
      Agree(a') && forall id :: id in a'.metas ==> Terminal(a'.metas[id].status)
    decreases |actions|
  {
    if actions != [] {
      match actions[0] {
        case Record(r, output) => if Terminal(r.status) && r.id !in a.metas { RecordAgrees(a, r, output); }
        case Sweep(cutoff) => SweepAgrees(a, cutoff, cap);
      }
      ArchiveAgrees(Step(a, cap, actions[0]), cap, actions[1..]);
    }
  }

  /** So from the empty archive on the four buckets always agree. */
  lemma ArchiveAlwaysAgrees(cap: nat, actions: seq<Action>)
    ensures Agree(RunAll(EMPTY, cap, actions))
  {
    ArchiveAgrees(EMPTY, cap, actions);
  }
}
