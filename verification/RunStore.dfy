/** The Store of internal/runstore as an object, and mergedRuns on top of it. */
module RunStore {
  import opened Basics
  import opened KeyCodec
  import opened Buckets
  import opened Archive
  import opened Listing
  import opened RunList

  type Victim = (Key, string)

  function VictimSet(victims: seq<Victim>): set<Victim> {
    set v | v in victims
  }

  lemma {:induction false} DistinctCount(victims: seq<Victim>)
    requires NoDup(victims)
    ensures |VictimSet(victims)| == |victims|
  {
    if victims != [] {
      var v, rest := victims[0], victims[1..];
      DistinctCount(rest);
      assert victims == [v] + rest;
      assert VictimSet(victims) == VictimSet(rest) + {v};
    }
  }

  lemma ExpiredOnce(bytime: Rows<string>, cutoff: int)
    requires Sorted(bytime)
    ensures NoDup(ExpiredPrefix(bytime, cutoff))
  {
    ExpiredPrefixIs(bytime, cutoff);
    forall i, j | 0 <= i < j < |ExpiredPrefix(bytime, cutoff)| ensures bytime[i] != bytime[j] {
      assert Before(bytime[i].0, bytime[j].0);
      BeforeOrder(bytime[i].0, bytime[j].0, bytime[j].0);
    }
  }

  lemma VictimsJoin(a: seq<Victim>, b: seq<Victim>)
    ensures VictimSet(a + b) == VictimSet(a) + VictimSet(b)
  {
  }

  class Store {
    const retention: int
    const maxPerHook: nat
    var db: State  // the bbolt file with its four buckets

    constructor (retention: int, maxPerHook: nat)
      ensures db == EMPTY && this.retention == retention && this.maxPerHook == maxPerHook
    {
      this.retention, this.maxPerHook, db := retention, maxPerHook, EMPTY;
    }

    /** Writes one terminal run to every bucket; anything else is refused. */
    method Record(r: Run, output: seq<string>) returns (ok: bool)
      modifies this
      ensures ok == Terminal(r.status)
      ensures db == if ok then Recorded(old(db), r, output) else old(db)
      ensures ok ==>
        && db.metas == old(db).metas[r.id := r]
        && db.outputs == if output == [] then old(db).outputs else old(db).outputs[r.id := output]
    {
      if !Terminal(r.status) {
        return false;
      }
      var key := KeyOf(r);
      db := db.(metas := db.metas[r.id := r]);
      db := db.(bytime := Put(db.bytime, key, r.hook));
      var rows := if r.hook in db.byhook then db.byhook[r.hook] else [];
      db := db.(byhook := db.byhook[r.hook := Put(rows, key, SummaryOf(r))]);
      if |output| > 0 {
        db := db.(outputs := db.outputs[r.id := output]);
      }
      return true;
    }

    /** Collects the expired and the surplus rows, then deletes each from all four buckets. */
    method Sweep(now: int) returns (removed: nat)
      requires Agree(db)
      modifies this
      ensures Agree(db)
      ensures db == Swept(old(db), now - retention, maxPerHook)
      ensures removed ==
        |TimeVictims(old(db).bytime, now - retention)| + |CapVictims(old(db).byhook, maxPerHook)|
    {
      var victims := PlanSweep(db, now - retention, maxPerHook);
      db := DeleteAll(db, victims);
      removed := |victims|;
    }
  }

  method DeleteAll(a: State, victims: seq<Victim>) returns (rest: State)
    ensures rest == Removed(a, VictimSet(victims))
  {
    rest := a;
    DeletedEnds(a, victims);
    var i := 0;
    while i < |victims|
      invariant 0 <= i <= |victims| && rest == Removed(a, VictimSet(victims[..i]))
    {
      DeletedNext(a, victims, i);
      rest := DeleteVictim(rest, victims[i]);
      i := i + 1;
    }
  }

  method DeleteVictim(a: State, v: Victim) returns (rest: State)
    ensures rest == Dropped(a, v)
  {
    rest := a.(metas := a.metas - {v.0.id}, outputs := a.outputs - {v.0.id}, bytime := Without(a.bytime, {v.0}));
    if v.1 in a.byhook {
      rest := rest.(byhook := a.byhook[v.1 := Without(a.byhook[v.1], {v.0})]);
    }
  }

  // -------------------------------------------------------------- deleting victims one by one

  function Dropped(a: State, v: Victim): State {
    State(a.metas - {v.0.id}, a.outputs - {v.0.id}, Without(a.bytime, {v.0}),
          if v.1 in a.byhook then a.byhook[v.1 := Without(a.byhook[v.1], {v.0})] else a.byhook)
  }

  lemma {:induction false} WithoutTwice<V>(rows: Rows<V>, ks: set<Key>, k: Key)
    ensures Without(Without(rows, ks), {k}) == Without(rows, ks + {k})
  {
    if rows != [] {
      var first, rest := rows[0], Without(rows[1..], ks);
      WithoutTwice(rows[1..], ks, k);
      if first.0 in ks {
        assert Without(rows, ks) == rest;
      } else {
        assert Without(rows, ks) == [first] + rest;
        WithoutHead(first, rest, {k});
      }
    }
  }

  lemma WithoutHead<V>(first: (Key, V), rest: Rows<V>, ks: set<Key>)
    ensures Without([first] + rest, ks) == (if first.0 in ks then [] else [first]) + Without(rest, ks)
  {
    assert ([first] + rest)[1..] == rest;
  }

  lemma {:induction false} WithoutNone<V>(rows: Rows<V>)
    ensures Without(rows, {}) == rows
  {
    if rows != [] {
      WithoutNone(rows[1..]);
    }
  }

  lemma RemovedNone(a: State)
    ensures Removed(a, {}) == a
  {
    WithoutNone(a.bytime);
    var none: set<Victim> := {};
    assert (set v | v in none :: v.0) == {};
    forall h | h in a.byhook ensures Removed(a, {}).byhook[h] == a.byhook[h] {
      assert (set v | v in none && v.1 == h :: v.0) == {};
      WithoutNone(a.byhook[h]);
    }
  }

  lemma RemovedHookOneMore(rows: Rows<Summary>, victims: set<Victim>, v: Victim, h: string)
    ensures Without(rows, set x | x in victims + {v} && x.1 == h :: x.0) ==
      if h == v.1 then Without(Without(rows, set x | x in victims && x.1 == h :: x.0), {v.0})
      else Without(rows, set x | x in victims && x.1 == h :: x.0)
  {
    var gone := set x | x in victims && x.1 == h :: x.0;
    var more := set x | x in victims + {v} && x.1 == h :: x.0;
    if h == v.1 {
      assert more == gone + {v.0};
      WithoutTwice(rows, gone, v.0);
    } else {
      assert more == gone;
    }
  }

  lemma RemovedOneMore(a: State, victims: set<Victim>, v: Victim)
    ensures Dropped(Removed(a, victims), v) == Removed(a, victims + {v})
  {
    var left, right := Dropped(Removed(a, victims), v), Removed(a, victims + {v});
    var ids, keys := set x | x in victims :: x.0.id, set x | x in victims :: x.0;
    assert (set x | x in victims + {v} :: x.0.id) == ids + {v.0.id};
    assert (set x | x in victims + {v} :: x.0) == keys + {v.0};
    WithoutTwice(a.bytime, keys, v.0);
    RemovedHooksOneMore(a, victims, v);
    assert left.metas == right.metas && left.outputs == right.outputs;
  }

  lemma RemovedHooksOneMore(a: State, victims: set<Victim>, v: Victim)
    ensures Dropped(Removed(a, victims), v).byhook == Removed(a, victims + {v}).byhook
  {
    var left, right := Dropped(Removed(a, victims), v).byhook, Removed(a, victims + {v}).byhook;
    forall h | h in a.byhook ensures left[h] == right[h] {
      RemovedHookOneMore(a.byhook[h], victims, v, h);
    }
  }

  /** The victims, with what deleting them will have done. */
  method PlanSweep(a: State, cutoff: int, cap: nat) returns (victims: seq<Victim>)
    requires Agree(a)
    ensures Removed(a, VictimSet(victims)) == Swept(a, cutoff, cap) && Agree(Swept(a, cutoff, cap))
    ensures |victims| == |TimeVictims(a.bytime, cutoff)| + |CapVictims(a.byhook, cap)|
  {
    SweepAgrees(a, cutoff, cap);
    victims := CollectVictims(a, cutoff, cap);
  }

  /** The time pass, then the count-cap pass, before anything is deleted. */
  method CollectVictims(a: State, cutoff: int, cap: nat) returns (victims: seq<Victim>)
    requires Agree(a)
    ensures VictimSet(victims) == TimeVictims(a.bytime, cutoff) + CapVictims(a.byhook, cap)
    ensures |victims| == |TimeVictims(a.bytime, cutoff)| + |CapVictims(a.byhook, cap)|
  {
    forall h | h in a.byhook ensures Sorted(a.byhook[h]) {
      assert Sorted(HookRows(a, h));
    }
    var expired := ExpiredRows(a.bytime, cutoff);
    var surplus := SurplusRows(a.byhook, cap);
    ExpiredOnce(a.bytime, cutoff);
    DistinctCount(expired);
    DistinctCount(surplus);
    VictimsJoin(expired, surplus);
    victims := expired + surplus;
  }

  lemma DeletedEnds(a: State, victims: seq<Victim>)
    ensures Removed(a, VictimSet(victims[..0])) == a && victims[..|victims|] == victims
  {
    RemovedNone(a);
    assert VictimSet(victims[..0]) == {};
  }

  lemma DeletedNext(a: State, victims: seq<Victim>, i: nat)
    requires i < |victims|
    ensures Dropped(Removed(a, VictimSet(victims[..i])), victims[i]) == Removed(a, VictimSet(victims[..i + 1]))
  {
    RemovedOneMore(a, VictimSet(victims[..i]), victims[i]);
    assert VictimSet(victims[..i + 1]) == VictimSet(victims[..i]) + {victims[i]};
  }

  method ExpiredRows(bytime: Rows<string>, cutoff: int) returns (victims: seq<Victim>)
    ensures victims == ExpiredPrefix(bytime, cutoff)
  {
    victims := [];
    var i := 0;
    while i < |bytime| && bytime[i].0.t <= cutoff
      invariant 0 <= i <= |bytime|
      invariant ExpiredPrefix(bytime, cutoff) == victims + ExpiredPrefix(bytime[i..], cutoff)
    {
      assert bytime[i..][1..] == bytime[i + 1..];
      victims := victims + [bytime[i]];
      i := i + 1;
    }
  }

  method SurplusRows(byhook: map<string, Rows<Summary>>, cap: nat) returns (victims: seq<Victim>)
    requires forall h :: h in byhook ==> Sorted(byhook[h])
    ensures VictimSet(victims) == CapVictims(byhook, cap) && NoDup(victims)
  {
    victims := [];
    var todo := byhook.Keys;
    while todo != {}
      invariant todo <= byhook.Keys && NoDup(victims)
      invariant forall v :: v in victims <==>
        exists i :: v.1 in byhook && v.1 !in todo && 0 <= i < |byhook[v.1]| - cap && v.0 == byhook[v.1][i].0
      decreases todo
    {
      var h :| h in todo;
      todo := todo - {h};
      var surplus := OldestRows(byhook[h], h, |byhook[h]| - cap);
      victims := victims + surplus;
    }
  }

  method OldestRows(rows: Rows<Summary>, h: string, excess: int) returns (victims: seq<Victim>)
    requires excess <= |rows| && Sorted(rows)
    ensures NoDup(victims)
    ensures forall v :: v in victims <==> v.1 == h && exists i :: 0 <= i < excess && v.0 == rows[i].0
  {
    victims := [];
    var i := 0;
    while i < excess
      invariant 0 <= i && (i <= excess || i == 0) && NoDup(victims)
      invariant forall v :: v in victims <==> v.1 == h && exists j :: 0 <= j < i && v.0 == rows[j].0
    {
      forall j | 0 <= j < i ensures rows[j].0 != rows[i].0 {
        assert Before(rows[j].0, rows[i].0);
        BeforeOrder(rows[j].0, rows[i].0, rows[i].0);
      }
      victims := victims + [(rows[i].0, h)];
      i := i + 1;
    }
  }

  // -------------------------------------------------------------- the merged page

  function IndexOf(a: State, hook: string): Index {
    if hook == "" then TimeIndex(a.bytime) else HookIndex(HookRows(a, hook))
  }

  /** Every retained run of the store (of one hook, if named), newest first. */
  function Stored(a: State, hook: string, cutoff: int): seq<Run> {
    Full(IndexOf(a, hook), Query(a.metas, None, {}, cutoff))
  }

  predicate RowsTrue(rows: Index, metas: map<string, Run>) {
    forall i :: 0 <= i < |rows| ==> rows[i].0.id in metas && KeyOf(metas[rows[i].0.id]) == rows[i].0
  }

  lemma IndexRowsTrue(a: State, hook: string)
    requires Agree(a)
    ensures RowsTrue(IndexOf(a, hook), a.metas)
  {
    if hook == "" {
      forall i | 0 <= i < |a.bytime| ensures IsRow(a.metas, a.bytime[i].0, a.bytime[i].1) {
        assert (a.bytime[i].0, a.bytime[i].1) in a.bytime;
      }
    } else {
      var rows := HookRows(a, hook);
      forall i | 0 <= i < |rows| ensures IsRow(a.metas, rows[i].0, hook) {
        assert (rows[i].0, rows[i].1) in HookRows(a, hook);
      }
    }
  }

  lemma {:induction false} FullIsFilter(rows: Index, q: Query)
    requires RowsTrue(rows, q.metas)
    ensures Full(rows, q) == Filter(Full(rows, Query(q.metas, None, {}, q.cutoff)), Fits(q.before, q.exclude))
  {
    if rows != [] {
      var k, front := rows[|rows| - 1].0, rows[..|rows| - 1];
      var all := Query(q.metas, None, {}, q.cutoff);
      FullIsFilter(front, q);
      FilterConcat(Shown(all, k), Full(front, all), Fits(q.before, q.exclude));
    }
  }

  lemma {:induction false} FullMembers(rows: Index, q: Query)
    ensures forall r :: r in Full(rows, q) ==>
      exists i :: 0 <= i < |rows| && rows[i].0.id in q.metas && r == q.metas[rows[i].0.id]
  {
    if rows != [] {
      var front := rows[..|rows| - 1];
      FullMembers(front, q);
      forall r | r in Full(rows, q)
        ensures exists i :: 0 <= i < |rows| && rows[i].0.id in q.metas && r == q.metas[rows[i].0.id]
      {
        if r in Full(front, q) {
          var i :| 0 <= i < |front| && front[i].0.id in q.metas && r == q.metas[front[i].0.id];
          assert rows[i] == front[i];
        } else {
          assert r in Shown(q, rows[|rows| - 1].0);
          assert r == q.metas[rows[|rows| - 1].0.id];
        }
      }
    }
  }

  lemma {:induction false} FullRanked(rows: Index, q: Query)
    requires Sorted(rows) && RowsTrue(rows, q.metas) && forall id :: id in q.metas ==> q.metas[id].id == id
    ensures Ranked(Full(rows, q), Newest) && DistinctIds(Full(rows, q))
  {
    if rows != [] {
      var k, front := rows[|rows| - 1].0, rows[..|rows| - 1];
      var rest := Full(front, q);
      FullRanked(front, q);
      FullMembers(front, q);
      forall j | 0 <= j < |rest| ensures rest[j].started <= k.t && rest[j].id != k.id {
        assert rest[j] in Full(front, q);
        var i :| 0 <= i < |front| && front[i].0.id in q.metas && rest[j] == q.metas[front[i].0.id];
        assert front[i] == rows[i];
        assert Before(rows[i].0, k);
        BeforeOrder(k, k, k);
      }
    }
  }

  /**
    SummariesByHook: a walk over one hook's index alone. Where the buckets agree it tells, of
    every retained run of the hook, just what the metadata would, newest first.
   */
  method SummariesByHook(a: State, hook: string, cutoff: int) returns (out: seq<Run>)
    requires Agree(a)
    ensures out == Full(HookIndex(HookRows(a, hook)), Query(a.metas, None, {}, cutoff))
  {
    AgreeingIndexes(a, hook);
    forall i | 0 <= i < |HookRows(a, hook)|
      ensures Lookup(a.metas, HookRows(a, hook)[i].0.id) == Some(Skeleton(hook, HookRows(a, hook)[i]))
    {
      SummaryIsRun(a, hook, i);
    }
    out := WalkSummaries(HookRows(a, hook), hook, cutoff, a.metas);
  }

  /** The state that a key and its summary describe. */
  function Skeleton(hook: string, row: (Key, Summary)): Run {
    Run(row.0.id, hook, row.0.t, row.1.startedAt, row.1.finished, row.1.status)
  }

  method WalkSummaries(rows: Rows<Summary>, hook: string, cutoff: int, ghost metas: map<string, Run>)
    returns (out: seq<Run>)
    requires Sorted(HookIndex(rows))
    requires forall i :: 0 <= i < |rows| ==> Lookup(metas, rows[i].0.id) == Some(Skeleton(hook, rows[i]))
    ensures out == Full(HookIndex(rows), Query(metas, None, {}, cutoff))
  {
    ghost var index, q := HookIndex(rows), Query(metas, None, {}, cutoff);
    out := [];
    var i := |rows|;
    assert index[..i] == index;
    while i > 0
      invariant 0 <= i <= |rows| && Full(index, q) == out + Full(index[..i], q)
    {
      if rows[i - 1].0.t <= cutoff {
        OlderExpired(index, i, cutoff);
        NothingVisible(index[..i], q);
        return;
      }
      FullFromNewest(index, q, i, out);
      i := i - 1;
      out := out + [Skeleton(hook, rows[i])];
    }
  }

  lemma SummaryIsRun(a: State, hook: string, i: nat)
    requires Agree(a) && i < |HookRows(a, hook)|
    ensures Lookup(a.metas, HookRows(a, hook)[i].0.id) == Some(Skeleton(hook, HookRows(a, hook)[i]))
  {
    var row := HookRows(a, hook)[i];
    assert (row.0, row.1) in HookRows(a, hook);
  }

  /** mergedRuns: partition the live runs, add unseen persisted ones, sort, cut, sort. */
  method MergedRuns(
    a: State, live: seq<Run>, hook: string, before: Option<int>, max: int, exclude: set<string>, cutoff: int)
    returns (out: seq<Run>)
    requires Agree(a) && Consistent(live, Stored(a, hook, cutoff))
    ensures out == Simple(live, Stored(a, hook, cutoff), before, max, exclude)
  {
    var active, capped, seen := Partition(live, before, exclude);
    AgreeingIndexes(a, hook);
    IndexRowsTrue(a, hook);
    var q := Query(a.metas, before, exclude, cutoff);
    var persisted := CollectBefore(IndexOf(a, hook), q, max);
    capped := AppendUnseen(capped, persisted, seen);
    capped := SortBy(capped, Newest);
    if max > 0 && |capped| > max {
      capped := capped[..max];
    }
    out := SortBy(active + capped, Newest);
    FullIsFilter(IndexOf(a, hook), q);
    FullRanked(IndexOf(a, hook), Query(a.metas, None, {}, cutoff));
    FastEqualsSimple(live, Stored(a, hook, cutoff), before, max, exclude);
  }

  method Partition(live: seq<Run>, before: Option<int>, exclude: set<string>)
    returns (active: seq<Run>, capped: seq<Run>, seen: set<string>)
    ensures var shown := Filter(live, Fits(before, exclude));
      active == ActivePart(shown, before.Some?) && capped == CappedPart(shown, before.Some?) && seen == Ids(shown)
  {
    active, capped, seen := [], [], {};
    var i := 0;
    ghost var shown: seq<Run> := [];
    while i < |live|
      invariant 0 <= i <= |live| && shown == Filter(live[..i], Fits(before, exclude))
      invariant active == ActivePart(shown, before.Some?) && capped == CappedPart(shown, before.Some?)
      invariant seen == Ids(shown)
    {
      var r := live[i];
      ShownOneMore(live, i, before, exclude);
      i := i + 1;
      if !((before.Some? && r.started >= before.value) || r.status in exclude) {
        PartsOneMore(shown, r, before.Some?);
        shown := shown + [r];
        seen := seen + {r.id};
        if before.None? && !Terminal(r.status) {
          active := active + [r];
        } else {
          capped := capped + [r];
        }
      }
    }
    assert live[..i] == live;
  }

  lemma ShownOneMore(live: seq<Run>, i: nat, before: Option<int>, exclude: set<string>)
    requires i < |live|
    ensures Filter(live[..i + 1], Fits(before, exclude)) ==
      Filter(live[..i], Fits(before, exclude)) +
      if (before.Some? && live[i].started >= before.value) || live[i].status in exclude then [] else [live[i]]
  {
    assert live[..i + 1] == live[..i] + [live[i]];
    FilterConcat(live[..i], [live[i]], Fits(before, exclude));
  }

  lemma PartsOneMore(shown: seq<Run>, r: Run, paged: bool)
    ensures ActivePart(shown + [r], paged) ==
      ActivePart(shown, paged) + if !paged && !Terminal(r.status) then [r] else []
    ensures CappedPart(shown + [r], paged) ==
      CappedPart(shown, paged) + if !paged && !Terminal(r.status) then [] else [r]
    ensures Ids(shown + [r]) == Ids(shown) + {r.id}
  {
    FilterConcat(shown, [r], Active());
    FilterConcat(shown, [r], Ended());
  }

  method AppendUnseen(capped: seq<Run>, persisted: seq<Run>, seen: set<string>) returns (out: seq<Run>)
    ensures out == capped + Filter(persisted, Unseen(seen))
  {
    out := capped;
    var i := 0;
    while i < |persisted|
      invariant 0 <= i <= |persisted| && out == capped + Filter(persisted[..i], Unseen(seen))
    {
      var p := persisted[i];
      assert persisted[..i + 1] == persisted[..i] + [p];
      FilterConcat(persisted[..i], [p], Unseen(seen));
      if p.id !in seen {
        out := out + [p];
      }
      i := i + 1;
    }
    assert persisted[..i] == persisted;
  }
}
