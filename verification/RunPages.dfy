/**
  What a page of mergedRuns shows, told by its rows: which runs may appear, which must, and in which
  order; and which runs the store contributes.
 */
module RunPages {
  import opened Basics
  import opened Archive
  import opened Listing
  import opened RunList
  import opened RunStore
  import opened RunWalk

  /** A live run, or a stored one that no live run stands for; older than the cursor; of a status not excluded. */
  predicate Eligible(live: seq<Run>, stored: seq<Run>, before: Option<int>, exclude: set<string>, r: Run) {
    && (r in live || (r in stored && forall l :: l in live ==> l.id != r.id))
    && (before.Some? ==> r.started < before.value)
    && r.status !in exclude
  }

  /** The rows that count against the maximum: those of a history page, and the ended ones of a window. */
  function Counted(page: seq<Run>, before: Option<int>): seq<Run> {
    Filter(page, (r: Run) => before.Some? || Terminal(r.status))
  }

  function Union(live: seq<Run>, stored: seq<Run>, before: Option<int>, exclude: set<string>): seq<Run> {
    Filter(live + Filter(stored, Unseen(Ids(live))), Fits(before, exclude))
  }

  lemma UnionIsEligible(live: seq<Run>, stored: seq<Run>, before: Option<int>, exclude: set<string>, r: Run)
    ensures r in Union(live, stored, before, exclude) <==> Eligible(live, stored, before, exclude, r)
  {
    FilterMembers(stored, Unseen(Ids(live)));
    FilterMembers(live + Filter(stored, Unseen(Ids(live))), Fits(before, exclude));
    assert r.id in Ids(live) <==> exists l :: l in live && l.id == r.id;
  }

  lemma {:induction false} FilterFewer(runs: seq<Run>, keep: Run -> bool, r: Run)
    ensures multiset(Filter(runs, keep))[r] <= multiset(runs)[r]
  {
    if runs != [] {
      FilterFewer(runs[1..], keep, r);
      assert runs == [runs[0]] + runs[1..];
    }
  }

  /** No row is shown more often than its live copies occur, or if it has none, its stored ones. */
  lemma UnionOnce(live: seq<Run>, stored: seq<Run>, before: Option<int>, exclude: set<string>, r: Run)
    ensures multiset(Union(live, stored, before, exclude))[r]
         <= if r.id in Ids(live) then multiset(live)[r] else multiset(stored)[r]
  {
    var extra := Filter(stored, Unseen(Ids(live)));
    FilterFewer(live + extra, Fits(before, exclude), r);
    FilterFewer(stored, Unseen(Ids(live)), r);
    FilterMembers(stored, Unseen(Ids(live)));
    if r.id in Ids(live) {
      assert r !in extra;
      assert multiset(extra)[r] == 0;
    } else {
      assert r !in live;
      assert multiset(live)[r] == 0;
    }
  }

  lemma {:induction false} ActiveAndEnded(runs: seq<Run>, r: Run)
    ensures multiset(Filter(runs, Active()))[r] + multiset(Filter(runs, Ended()))[r] == multiset(runs)[r]
  {
    if runs != [] {
      ActiveAndEnded(runs[1..], r);
      assert runs == [runs[0]] + runs[1..];
    }
  }

  /** What the newest max of the capped rows are. */
  lemma CutMembers(capped: seq<Run>, max: int)
    ensures var cut := Capped(SortBy(capped, Newest), max);
      && multiset(cut) <= multiset(capped) && (max > 0 ==> |cut| <= max)
      && forall r :: r in cut ==> r in capped
  {
    var sorted := SortBy(capped, Newest);
    var cut := Capped(sorted, max);
    SortByRanks(capped, Newest);
    assert sorted == cut + sorted[|cut|..];
    assert multiset(sorted) == multiset(cut) + multiset(sorted[|cut|..]);
    forall r | r in cut ensures r in capped {
      assert r in sorted;
      assert r in multiset(sorted);
      assert r in multiset(capped);
    }
  }

  lemma CutIsNewest(capped: seq<Run>, max: int, r: Run)
    requires r in capped && r !in Capped(SortBy(capped, Newest), max)
    ensures var cut := Capped(SortBy(capped, Newest), max);
      0 < max == |cut| && forall x :: x in cut ==> x.started >= r.started
  {
    var sorted := SortBy(capped, Newest);
    var cut := Capped(sorted, max);
    SortByRanks(capped, Newest);
    SortByKeepsMember(capped, Newest, r);
    var j :| 0 <= j < |sorted| && sorted[j] == r;
    assert j >= |cut|;
    forall x | x in cut ensures x.started >= r.started {
      var i :| 0 <= i < |cut| && cut[i] == x;
      assert Newest(sorted[i]) <= Newest(sorted[j]);
    }
  }

  /** The parts of a page: what is always shown, what was cut, and their counts. */
  lemma PageParts(active: seq<Run>, capped: seq<Run>, max: int)
    ensures var page := Page(active, capped, max);
      && Ranked(page, Newest)
      && multiset(page) == multiset(active) + multiset(Capped(SortBy(capped, Newest), max))
      && forall r :: r in page <==> r in active || r in Capped(SortBy(capped, Newest), max)
  {
    var all := active + Capped(SortBy(capped, Newest), max);
    SortByRanks(all, Newest);
    forall r ensures r in Page(active, capped, max) <==> r in all {
      assert r in SortBy(all, Newest) <==> r in multiset(SortBy(all, Newest));
      assert r in all <==> r in multiset(all);
    }
  }

  lemma CountedIsCut(live: seq<Run>, stored: seq<Run>, before: Option<int>, max: int, exclude: set<string>)
    ensures var shown := Union(live, stored, before, exclude);
      var cut := Capped(SortBy(CappedPart(shown, before.Some?), Newest), max);
      Counted(Simple(live, stored, before, max, exclude), before) == SortBy(cut, Newest)
  {
    var shown := Union(live, stored, before, exclude);
    var active, capped := ActivePart(shown, before.Some?), CappedPart(shown, before.Some?);
    var cut := Capped(SortBy(capped, Newest), max);
    var counts := (r: Run) => before.Some? || Terminal(r.status);
    FilterSortBy(active + cut, Newest, counts);
    FilterConcat(active, cut, counts);
    FilterMembers(shown, Ended());
    FilterMembers(shown, Active());
    CutMembers(capped, max);
    FilterAll(cut, counts);
    FilterNone(active, counts);
    assert [] + cut == cut;
  }

  lemma {:induction false} FilterAll(runs: seq<Run>, keep: Run -> bool)
    requires forall r :: r in runs ==> keep(r)
    ensures Filter(runs, keep) == runs
  {
    if runs != [] {
      FilterAll(runs[1..], keep);
    }
  }

  lemma {:induction false} FilterNone(runs: seq<Run>, keep: Run -> bool)
    requires forall r :: r in runs ==> !keep(r)
    ensures Filter(runs, keep) == []
  {
    if runs != [] {
      FilterNone(runs[1..], keep);
    }
  }

  /** The rows that count are the cut ones. */
  lemma CountedMembers(live: seq<Run>, stored: seq<Run>, before: Option<int>, max: int, exclude: set<string>)
    ensures var shown := Union(live, stored, before, exclude);
      var cut := Capped(SortBy(CappedPart(shown, before.Some?), Newest), max);
      var counted := Counted(Simple(live, stored, before, max, exclude), before);
      |counted| == |cut| && forall r :: r in counted <==> r in cut
  {
    var shown := Union(live, stored, before, exclude);
    var cut := Capped(SortBy(CappedPart(shown, before.Some?), Newest), max);
    CountedIsCut(live, stored, before, max, exclude);
    SortByRanks(cut, Newest);
    var sorted := SortBy(cut, Newest);
    assert |sorted| == |multiset(sorted)| == |cut|;
    forall r ensures r in sorted <==> r in cut {
      assert r in sorted <==> r in multiset(sorted);
      assert r in cut <==> r in multiset(cut);
    }
  }

  /** An eligible run is left out only for max others that count and are not older. */
  lemma LeftOut(live: seq<Run>, stored: seq<Run>, before: Option<int>, max: int, exclude: set<string>, r: Run)
    requires Eligible(live, stored, before, exclude, r) && r !in Simple(live, stored, before, max, exclude)
    ensures before.Some? || Terminal(r.status)
    ensures var counted := Counted(Simple(live, stored, before, max, exclude), before);
      0 < max == |counted| && forall x :: x in counted ==> x.started >= r.started
  {
    var shown := Union(live, stored, before, exclude);
    var active, capped := ActivePart(shown, before.Some?), CappedPart(shown, before.Some?);
    UnionIsEligible(live, stored, before, exclude, r);
    PageParts(active, capped, max);
    FilterMembers(shown, Ended());
    FilterMembers(shown, Active());
    CutIsNewest(capped, max, r);
    CountedMembers(live, stored, before, max, exclude);
  }

  lemma ShownIsEligible(live: seq<Run>, stored: seq<Run>, before: Option<int>, max: int, exclude: set<string>, r: Run)
    requires r in Simple(live, stored, before, max, exclude)
    ensures Eligible(live, stored, before, exclude, r)
  {
    var shown := Union(live, stored, before, exclude);
    var active, capped := ActivePart(shown, before.Some?), CappedPart(shown, before.Some?);
    PageParts(active, capped, max);
    CutMembers(capped, max);
    FilterMembers(shown, Ended());
    FilterMembers(shown, Active());
    UnionIsEligible(live, stored, before, exclude, r);
  }

  /**
    The page: newest first, only eligible runs. An active run is always in a window. At most max rows
    count against a positive max, and an eligible run is left out only if that many rows do, none of
    them older than it.
   */
  lemma PageExactly(live: seq<Run>, stored: seq<Run>, before: Option<int>, max: int, exclude: set<string>)
    ensures var page := Simple(live, stored, before, max, exclude); var counted := Counted(page, before);
      && (forall i, j :: 0 <= i < j < |page| ==> page[i].started >= page[j].started)
      && (forall r :: r in page ==> Eligible(live, stored, before, exclude, r))
      && (max > 0 ==> |counted| <= max)
      && (forall r :: Eligible(live, stored, before, exclude, r) && r !in page ==>
            && (before.Some? || Terminal(r.status))
            && 0 < max == |counted| && forall x :: x in counted ==> x.started >= r.started)
  {
    var page, shown := Simple(live, stored, before, max, exclude), Union(live, stored, before, exclude);
    PageParts(ActivePart(shown, before.Some?), CappedPart(shown, before.Some?), max);
    CutMembers(CappedPart(shown, before.Some?), max);
    CountedMembers(live, stored, before, max, exclude);
    forall i, j | 0 <= i < j < |page| ensures page[i].started >= page[j].started {
      assert Newest(page[i]) <= Newest(page[j]);
    }
    forall r | r in page ensures Eligible(live, stored, before, exclude, r) {
      ShownIsEligible(live, stored, before, max, exclude, r);
    }
    forall r | Eligible(live, stored, before, exclude, r) && r !in page
      ensures before.Some? || Terminal(r.status)
      ensures var counted := Counted(page, before);
        0 < max == |counted| && forall x :: x in counted ==> x.started >= r.started
    {
      LeftOut(live, stored, before, max, exclude, r);
    }
  }

  /** And no row is shown twice: at most as often as its run is live, or else stored. */
  lemma PageShowsOnce(live: seq<Run>, stored: seq<Run>, before: Option<int>, max: int, exclude: set<string>, r: Run)
    ensures multiset(Simple(live, stored, before, max, exclude))[r]
         <= if exists l :: l in live && l.id == r.id then multiset(live)[r] else multiset(stored)[r]
  {
    var shown := Union(live, stored, before, exclude);
    var active, capped := ActivePart(shown, before.Some?), CappedPart(shown, before.Some?);
    PageParts(active, capped, max);
    CutMembers(capped, max);
    ActiveAndEnded(shown, r);
    UnionOnce(live, stored, before, exclude, r);
    assert r.id in Ids(live) <==> exists l :: l in live && l.id == r.id;
  }

  /** The whole history of a walk: every run that may appear, newest first. */
  lemma HistoryExactly(live: seq<Run>, stored: seq<Run>, exclude: set<string>)
    ensures var history := History(live, stored, exclude);
      && (forall i, j :: 0 <= i < j < |history| ==> history[i].started >= history[j].started)
      && (forall r :: r in history <==> Eligible(live, stored, None, exclude, r))
  {
    var union := Union(live, stored, None, exclude);
    SortByRanks(union, Newest);
    var history := History(live, stored, exclude);
    forall r ensures r in history <==> Eligible(live, stored, None, exclude, r) {
      assert r in history <==> r in multiset(history);
      assert r in union <==> r in multiset(union);
      UnionIsEligible(live, stored, None, exclude, r);
    }
    forall i, j | 0 <= i < j < |history| ensures history[i].started >= history[j].started {
      assert Newest(history[i]) <= Newest(history[j]);
    }
  }

  // ---------------------------------------------------------------- what the store contributes

  /** The reference listing shows exactly these runs. */
  lemma {:induction false} FullExactly(rows: Index, q: Query, r: Run)
    ensures r in Full(rows, q) <==>
      exists i ::
        && 0 <= i < |rows| && Lookup(q.metas, rows[i].0.id) == Some(r) && r.status !in q.exclude
        && q.cutoff < rows[i].0.t && (q.before.Some? ==> rows[i].0.t < q.before.value)
  {
    if rows != [] {
      var front, k := rows[..|rows| - 1], rows[|rows| - 1].0;
      FullExactly(front, q, r);
      assert rows == front + [rows[|rows| - 1]];
    }
  }

  /** The store shows the runs on record, of the hook if one is named, that have not expired. */
  lemma StoredExactly(a: State, hook: string, cutoff: int, r: Run)
    requires Agree(a)
    ensures r in Stored(a, hook, cutoff) <==>
      r.id in a.metas && a.metas[r.id] == r && (hook == "" || r.hook == hook) && cutoff < r.started
  {
    var rows, q := IndexOf(a, hook), Query(a.metas, None, {}, cutoff);
    FullExactly(rows, q, r);
    IndexRowsTrue(a, hook);
    if Lookup(a.metas, r.id) == Some(r) && (hook == "" || r.hook == hook) {
      RowOf(a, hook, r);
    }
    if r in Full(rows, q) && hook != "" {
      var i :| 0 <= i < |rows| && Lookup(a.metas, rows[i].0.id) == Some(r);
      var row := HookRows(a, hook)[i];
      assert (row.0, row.1) in HookRows(a, hook);
    }
  }

  lemma RowOf(a: State, hook: string, r: Run)
    requires Agree(a) && Lookup(a.metas, r.id) == Some(r) && (hook == "" || r.hook == hook)
    ensures exists i :: 0 <= i < |IndexOf(a, hook)| && IndexOf(a, hook)[i].0 == KeyOf(r)
  {
    if hook == "" {
      assert (KeyOf(r), r.hook) in a.bytime;
      var i :| 0 <= i < |a.bytime| && a.bytime[i] == (KeyOf(r), r.hook);
      assert IndexOf(a, hook)[i].0 == KeyOf(r);
    } else {
      var rows := HookRows(a, hook);
      assert (KeyOf(r), SummaryOf(r)) in HookRows(a, hook);
      var i :| 0 <= i < |rows| && rows[i] == (KeyOf(r), SummaryOf(r));
      assert IndexOf(a, hook)[i].0 == KeyOf(r);
    }
  }

  /** A sweep leaves what it keeps of a run untouched: metadata and output. */
  lemma SweepSpares(a: State, cutoff: int, cap: nat, id: string)
    requires id in Swept(a, cutoff, cap).metas
    ensures id in a.metas && Swept(a, cutoff, cap).metas[id] == a.metas[id]
    ensures Lookup(Swept(a, cutoff, cap).outputs, id) == Lookup(a.outputs, id)
  {
  }
}
