/**
  mergedRuns of internal/server/runlist.go: live and persisted runs in one page. The fast path
  asks the store for at most `max` rows; the reference merges everything and then cuts.
 */
module RunList {
  import opened Basics
  import opened Archive
  import opened Listing

  function Newest(r: Run): int {
    -(r.started as int)
  }

  function Fits(before: Option<int>, exclude: set<string>): Run -> bool {
    (r: Run) => (before.Some? ==> r.started < before.value) && r.status !in exclude
  }

  function Unseen(seen: set<string>): Run -> bool {
    (r: Run) => r.id !in seen
  }

  function Ended(): Run -> bool {
    (r: Run) => Terminal(r.status)
  }

  function Active(): Run -> bool {
    (r: Run) => !Terminal(r.status)
  }

  function Ids(runs: seq<Run>): set<string> {
    set r | r in runs :: r.id
  }

  /** The rows the cap applies to: terminal ones on a live window, all of them on a history page. */
  function CappedPart(shown: seq<Run>, paged: bool): seq<Run> {
    if paged then shown else Filter(shown, Ended())
  }

  function ActivePart(shown: seq<Run>, paged: bool): seq<Run> {
    if paged then [] else Filter(shown, Active())
  }

  function Page(active: seq<Run>, capped: seq<Run>, max: int): seq<Run> {
    SortBy(active + Capped(SortBy(capped, Newest), max), Newest)
  }

  /** mergedRuns, given the persisted rows the store returned. */
  function Merged(live: seq<Run>, persisted: seq<Run>, before: Option<int>, max: int, exclude: set<string>): seq<Run> {
    var shown := Filter(live, Fits(before, exclude));
    Page(ActivePart(shown, before.Some?),
         CappedPart(shown, before.Some?) + Filter(persisted, Unseen(Ids(shown))), max)
  }

  /** The simple specification: deduplicate everything (live wins), filter, sort, cut. */
  function Simple(live: seq<Run>, stored: seq<Run>, before: Option<int>, max: int, exclude: set<string>): seq<Run> {
    var shown := Filter(live + Filter(stored, Unseen(Ids(live))), Fits(before, exclude));
    Page(ActivePart(shown, before.Some?), CappedPart(shown, before.Some?), max)
  }

  /** A fixed state: the live copy of a persisted run has the persisted status and queue time. */
  predicate Consistent(live: seq<Run>, stored: seq<Run>) {
    && (forall r, p :: r in live && p in stored && r.id == p.id ==> r.status == p.status && r.started == p.started)
    && (forall p :: p in stored ==> Terminal(p.status))
  }

  predicate DistinctIds(runs: seq<Run>) {
    forall i, j :: 0 <= i < j < |runs| ==> runs[i].id != runs[j].id
  }

  // ---------------------------------------------------------------- the cap pushed into the store

  lemma {:induction false} IdsBound(runs: seq<Run>)
    ensures |Ids(runs)| <= |runs|
    ensures DistinctIds(runs) ==> |Ids(runs)| == |runs|
  {
    if runs != [] {
      var x, front := runs[|runs| - 1], runs[..|runs| - 1];
      IdsBound(front);
      assert runs == front + [x];
      assert Ids(runs) == Ids(front) + {x.id};
      if DistinctIds(runs) {
        assert x.id !in Ids(front);
      }
    }
  }

  /** The length of the prefix of rows at least as new as t. */
  function NewerPrefix(runs: seq<Run>, t: int): nat {
    if runs == [] || runs[0].started < t then 0 else 1 + NewerPrefix(runs[1..], t)
  }

  lemma {:induction false} NewerPrefixIs(runs: seq<Run>, t: int)
    requires Ranked(runs, Newest)
    ensures NewerPrefix(runs, t) <= |runs|
    ensures forall i :: 0 <= i < |runs| ==> (i < NewerPrefix(runs, t) <==> runs[i].started >= t)
  {
    if runs != [] {
      if runs[0].started < t {
        forall i | 0 < i < |runs| ensures runs[i].started < t {
          assert Newest(runs[0]) <= Newest(runs[i]);
        }
      } else {
        NewerPrefixIs(runs[1..], t);
      }
    }
  }

  /** If m different runs are at least as new as t, so are the first m rows of the sorted list. */
  lemma EnoughNewer(sorted: seq<Run>, ids: set<string>, t: int, m: nat)
    requires Ranked(sorted, Newest) && m <= |ids|
    requires forall id :: id in ids ==> exists r :: r in sorted && r.id == id && r.started >= t
    ensures m <= |sorted| && forall i :: 0 <= i < m ==> sorted[i].started >= t
  {
    NewerPrefixIs(sorted, t);
    var c := NewerPrefix(sorted, t);
    forall id | id in ids ensures id in Ids(sorted[..c]) {
      var r :| r in sorted && r.id == id && r.started >= t;
      var i :| 0 <= i < |sorted| && sorted[i] == r;
      assert sorted[..c][i] == r;
    }
    IdsBound(sorted[..c]);
    assert ids <= Ids(sorted[..c]);
    SubsetCard(ids, Ids(sorted[..c]));
  }

  lemma SubsetCard(a: set<string>, b: set<string>)
    requires a <= b
    ensures |a| <= |b|
  {
    assert b == a + (b - a);
  }

  /** Persisted rows whose live copy is shown have that copy, equally new, in the capped part. */
  predicate Covered(capped: seq<Run>, persisted: seq<Run>, seen: set<string>) {
    forall p :: p in persisted && p.id in seen ==> exists r :: r in capped && r.id == p.id && r.started == p.started
  }

  /** Every row of a persisted prefix is represented in the merged list, equally new. */
  lemma RowRepresented(capped: seq<Run>, persisted: seq<Run>, seen: set<string>, m: nat, p: Run)
    requires m <= |persisted| && Covered(capped, persisted, seen) && p in persisted[..m]
    ensures exists r ::
      r in SortBy(capped + Filter(persisted[..m], Unseen(seen)), Newest) && r.id == p.id && r.started == p.started
  {
    var merged := capped + Filter(persisted[..m], Unseen(seen));
    assert p in persisted;
    if p.id in seen {
      var r :| r in capped && r.id == p.id && r.started == p.started;
      SortByKeepsMember(merged, Newest, r);
    } else {
      FilterMembers(persisted[..m], Unseen(seen));
      assert p in merged;
      SortByKeepsMember(merged, Newest, p);
    }
  }

  lemma IdRepresented(capped: seq<Run>, persisted: seq<Run>, seen: set<string>, m: nat, id: string)
    requires 0 < m <= |persisted| && Ranked(persisted, Newest)
    requires Covered(capped, persisted, seen) && id in Ids(persisted[..m])
    ensures exists r ::
      && r in SortBy(capped + Filter(persisted[..m], Unseen(seen)), Newest)
      && r.id == id && r.started >= persisted[m - 1].started
  {
    var p :| p in persisted[..m] && p.id == id;
    RowRepresented(capped, persisted, seen, m, p);
    var i :| 0 <= i < m && persisted[..m][i] == p;
    assert i < m - 1 ==> Newest(persisted[i]) <= Newest(persisted[m - 1]);
  }

  lemma TopRowsSuffice(capped: seq<Run>, persisted: seq<Run>, seen: set<string>, m: nat)
    requires 0 < m < |persisted| && Ranked(persisted, Newest) && DistinctIds(persisted)
    requires Covered(capped, persisted, seen)
    ensures var top := SortBy(capped + Filter(persisted[..m], Unseen(seen)), Newest);
      m <= |top| && forall i :: 0 <= i < m ==> top[i].started >= persisted[m - 1].started
  {
    var first := persisted[..m];
    var merged := capped + Filter(first, Unseen(seen));
    var t := persisted[m - 1].started;
    SortByRanks(merged, Newest);
    IdsBound(first);
    forall id | id in Ids(first)
      ensures exists r :: r in SortBy(merged, Newest) && r.id == id && r.started >= t
    {
      IdRepresented(capped, persisted, seen, m, id);
    }
    EnoughNewer(SortBy(merged, Newest), Ids(first), t, m);
  }

  lemma SamePrefixSameCap(a: seq<Run>, b: seq<Run>, max: int)
    requires 0 < max <= |a| && max <= |b| && a[..max] == b[..max]
    ensures Capped(a, max) == Capped(b, max)
  {
    assert |a| == max ==> a[..max] == a;
    assert |b| == max ==> b[..max] == b;
  }

  /** Cutting the persisted rows to max before the merge does not change the cut page. */
  lemma CapCommutes(capped: seq<Run>, persisted: seq<Run>, seen: set<string>, max: int)
    requires Ranked(persisted, Newest) && DistinctIds(persisted) && Covered(capped, persisted, seen)
    ensures Capped(SortBy(capped + Filter(Capped(persisted, max), Unseen(seen)), Newest), max)
         == Capped(SortBy(capped + Filter(persisted, Unseen(seen)), Newest), max)
  {
    if 0 < max < |persisted| {
      var a, b := capped + Filter(persisted[..max], Unseen(seen)), Filter(persisted[max..], Unseen(seen));
      assert capped + Filter(persisted, Unseen(seen)) == a + b by {
        assert persisted == persisted[..max] + persisted[max..];
        FilterConcat(persisted[..max], persisted[max..], Unseen(seen));
      }
      TopRowsSuffice(capped, persisted, seen, max);
      forall i, y | 0 <= i < max && y in b ensures Newest(SortBy(a, Newest)[i]) <= Newest(y) {
        LaterIsOlder(persisted, seen, max, y);
      }
      SortByAppendKeepsPrefix(a, b, Newest, max);
      SamePrefixSameCap(SortBy(a, Newest), SortBy(a + b, Newest), max);
    }
  }

  lemma LaterIsOlder(persisted: seq<Run>, seen: set<string>, m: nat, y: Run)
    requires 0 < m < |persisted| && Ranked(persisted, Newest) && y in Filter(persisted[m..], Unseen(seen))
    ensures y.started <= persisted[m - 1].started
  {
    FilterMembers(persisted[m..], Unseen(seen));
    var j :| 0 <= j < |persisted[m..]| && persisted[m..][j] == y;
    assert Newest(persisted[m - 1]) <= Newest(persisted[m + j]);
  }

  /**
    The fast listing equals the full one: asking the store for only max rows gives the same
    page as asking it for all of them.
   */
  lemma FastEqualsFull(live: seq<Run>, persisted: seq<Run>, before: Option<int>, max: int, exclude: set<string>)
    requires Ranked(persisted, Newest) && DistinctIds(persisted) && Consistent(live, persisted)
    ensures Merged(live, Capped(persisted, max), before, max, exclude) == Merged(live, persisted, before, max, exclude)
  {
    var shown := Filter(live, Fits(before, exclude));
    var capped := CappedPart(shown, before.Some?);
    FilterMembers(live, Fits(before, exclude));
    FilterMembers(shown, Ended());
    forall p | p in persisted && p.id in Ids(shown)
      ensures exists r :: r in capped && r.id == p.id && r.started == p.started
    {
      var r :| r in shown && r.id == p.id;
      assert r in live;
      assert r in capped;
    }
    CapCommutes(capped, persisted, Ids(shown), max);
  }

  // ---------------------------------------------------------------- filtering before deduplicating

  function Dedup(live: seq<Run>, before: Option<int>, exclude: set<string>): Run -> bool {
    (r: Run) => r.id !in Ids(live) && Fits(before, exclude)(r)
  }

  /** What the store adds is the same whether rows are deduplicated before or after filtering. */
  lemma StoredPartAgrees(live: seq<Run>, stored: seq<Run>, before: Option<int>, exclude: set<string>)
    requires Consistent(live, stored)
    ensures var seen := Ids(Filter(live, Fits(before, exclude)));
      Filter(Filter(stored, Fits(before, exclude)), Unseen(seen))
      == Filter(Filter(stored, Unseen(Ids(live))), Fits(before, exclude))
  {
    var seen := Ids(Filter(live, Fits(before, exclude)));
    var both := Dedup(live, before, exclude);
    FilterTwice(stored, Unseen(Ids(live)), Fits(before, exclude), both);
    forall i | 0 <= i < |stored|
      ensures both(stored[i]) <==> Fits(before, exclude)(stored[i]) && Unseen(seen)(stored[i])
    {
      SeenIfLive(live, stored, before, exclude, stored[i]);
    }
    FilterTwice(stored, Fits(before, exclude), Unseen(seen), both);
  }

  /** Filtering both sides first and then deduplicating equals deduplicating everything first. */
  lemma FullEqualsSimple(live: seq<Run>, stored: seq<Run>, before: Option<int>, max: int, exclude: set<string>)
    requires Consistent(live, stored)
    ensures Merged(live, Filter(stored, Fits(before, exclude)), before, max, exclude)
         == Simple(live, stored, before, max, exclude)
  {
    var fits := Fits(before, exclude);
    var shown := Filter(live, fits);
    var onlyStored := Filter(stored, Unseen(Ids(live)));
    var extra := Filter(onlyStored, fits);
    StoredPartAgrees(live, stored, before, exclude);
    FilterConcat(live, onlyStored, fits);
    if before.None? {
      FilterMembers(stored, Unseen(Ids(live)));
      FilterMembers(onlyStored, fits);
      AllEnded(extra);
      FilterConcat(shown, extra, Ended());
      FilterConcat(shown, extra, Active());
      assert Filter(shown, Active()) + [] == Filter(shown, Active());
    }
  }

  lemma SeenIfLive(live: seq<Run>, stored: seq<Run>, before: Option<int>, exclude: set<string>, p: Run)
    requires Consistent(live, stored) && p in stored
    ensures var shown := Filter(live, Fits(before, exclude));
      Fits(before, exclude)(p) ==> (p.id in Ids(shown) <==> p.id in Ids(live))
  {
    FilterMembers(live, Fits(before, exclude));
    var shown := Filter(live, Fits(before, exclude));
    if Fits(before, exclude)(p) && p.id in Ids(live) {
      var r :| r in live && r.id == p.id;
      assert r in shown;
    }
  }

  lemma {:induction false} AllEnded(runs: seq<Run>)
    requires forall r :: r in runs ==> Terminal(r.status)
    ensures Filter(runs, Ended()) == runs && Filter(runs, Active()) == []
  {
    if runs != [] {
      AllEnded(runs[1..]);
    }
  }

  /**
    mergedRuns, with the store limited to max rows, returns the page of the simple
    specification: sort the deduplicated union, filter it and cut it.
   */
  lemma FastEqualsSimple(live: seq<Run>, stored: seq<Run>, before: Option<int>, max: int, exclude: set<string>)
    requires Ranked(stored, Newest) && DistinctIds(stored) && Consistent(live, stored)
    ensures Merged(live, Capped(Filter(stored, Fits(before, exclude)), max), before, max, exclude)
         == Simple(live, stored, before, max, exclude)
  {
    var persisted := Filter(stored, Fits(before, exclude));
    FilterMembers(stored, Fits(before, exclude));
    FilterRanked(stored, Fits(before, exclude));
    FastEqualsFull(live, persisted, before, max, exclude);
    FullEqualsSimple(live, stored, before, max, exclude);
  }

  lemma {:induction false} FilterRanked(runs: seq<Run>, keep: Run -> bool)
    requires Ranked(runs, Newest) && DistinctIds(runs)
    ensures Ranked(Filter(runs, keep), Newest) && DistinctIds(Filter(runs, keep))
  {
    if runs != [] {
      var rest := Filter(runs[1..], keep);
      FilterRanked(runs[1..], keep);
      FilterMembers(runs[1..], keep);
      forall j | 0 <= j < |rest| ensures Newest(runs[0]) <= Newest(rest[j]) && runs[0].id != rest[j].id {
        assert rest[j] in runs[1..];
      }
    }
  }

  /** A live window never hides an active run, however small max is. */
  lemma ActiveAlwaysShown(live: seq<Run>, persisted: seq<Run>, max: int, exclude: set<string>, r: Run)
    requires r in live && !Terminal(r.status) && r.status !in exclude
    ensures r in Merged(live, persisted, None, max, exclude)
  {
    var shown := Filter(live, Fits(None, exclude));
    FilterMembers(live, Fits(None, exclude));
    FilterMembers(shown, Active());
    var active := Filter(shown, Active());
    var all := active + Capped(SortBy(CappedPart(shown, false) + Filter(persisted, Unseen(Ids(shown))), Newest), max);
    SortByKeepsMember(all, Newest, r);
  }
}
