/**
  Paging through mergedRuns (internal/server/runlist.go): a client asks for the page before the
  oldest Started it holds, until a page comes back empty.
 */
module RunWalk {
  import opened Basics
  import opened Archive
  import opened Listing
  import opened RunList

  /** Everything a walk can show, newest first. */
  function History(live: seq<Run>, stored: seq<Run>, exclude: set<string>): seq<Run> {
    SortBy(Filter(live + Filter(stored, Unseen(Ids(live))), Fits(None, exclude)), Newest)
  }

  predicate DistinctTimes(runs: seq<Run>) {
    forall i, j :: 0 <= i < j < |runs| ==> runs[i].started != runs[j].started
  }

  predicate Descending(runs: seq<Run>) {
    forall i, j :: 0 <= i < j < |runs| ==> runs[i].started > runs[j].started
  }

  function OlderThan(runs: seq<Run>, t: int): seq<Run> {
    Filter(runs, Fits(Some(t), {}))
  }

  function Flatten(pages: seq<seq<Run>>): seq<Run> {
    if pages == [] then [] else pages[0] + Flatten(pages[1..])
  }

  /** The history pages before an instant, each before the oldest row of the one it follows. */
  predicate FollowsCursor(
    live: seq<Run>, stored: seq<Run>, exclude: set<string>, before: int, max: int, pages: seq<seq<Run>>)
    decreases |pages|
  {
    && pages != []
    && pages[0] == Simple(live, stored, Some(before), max, exclude)
    && if pages[0] == [] then |pages| == 1
       else FollowsCursor(live, stored, exclude, pages[0][|pages[0]| - 1].started, max, pages[1..])
  }

  /** The documented walk: the unpaged window first, then the pages before its oldest row. */
  predicate WalksFromWindow(live: seq<Run>, stored: seq<Run>, exclude: set<string>, max: int, pages: seq<seq<Run>>) {
    && pages != []
    && pages[0] == Simple(live, stored, None, max, exclude)
    && if pages[0] == [] then |pages| == 1
       else FollowsCursor(live, stored, exclude, pages[0][|pages[0]| - 1].started, max, pages[1..])
  }

  // ---------------------------------------------------------------- history pages

  /** A history page is the newest max rows of the history that are older than the cursor. */
  lemma PageIsOlder(live: seq<Run>, stored: seq<Run>, before: int, max: int, exclude: set<string>)
    ensures Simple(live, stored, Some(before), max, exclude)
         == Capped(OlderThan(History(live, stored, exclude), before), max)
  {
    var union := live + Filter(stored, Unseen(Ids(live)));
    var whole := Filter(union, Fits(None, exclude));
    FilterTwice(union, Fits(None, exclude), Fits(Some(before), {}), Fits(Some(before), exclude));
    FilterSortBy(whole, Newest, Fits(Some(before), {}));
    var page := Capped(SortBy(Filter(union, Fits(Some(before), exclude)), Newest), max);
    assert [] + page == page;
    SortByRanks(Filter(union, Fits(Some(before), exclude)), Newest);
    SortByOfRanked(page, Newest);
  }

  lemma HistoryDescends(live: seq<Run>, stored: seq<Run>, exclude: set<string>)
    requires DistinctTimes(History(live, stored, exclude))
    ensures Descending(History(live, stored, exclude))
  {
    SortByRanks(Filter(live + Filter(stored, Unseen(Ids(live))), Fits(None, exclude)), Newest);
    var history := History(live, stored, exclude);
    forall i, j | 0 <= i < j < |history| ensures history[i].started > history[j].started {
      assert Newest(history[i]) <= Newest(history[j]);
    }
  }

  lemma {:induction false} NoneFit(runs: seq<Run>, t: int)
    requires forall j :: 0 <= j < |runs| ==> runs[j].started >= t
    ensures OlderThan(runs, t) == []
  {
    if runs != [] {
      NoneFit(runs[1..], t);
    }
  }

  lemma {:induction false} AllFit(runs: seq<Run>, t: int)
    requires forall j :: 0 <= j < |runs| ==> runs[j].started < t
    ensures OlderThan(runs, t) == runs
  {
    if runs != [] {
      AllFit(runs[1..], t);
    }
  }

  /** The rows older than an instant are a suffix of a descending list. */
  lemma OlderIsSuffix(runs: seq<Run>, k: nat, t: int)
    requires k <= |runs|
    requires forall i :: 0 <= i < |runs| ==> (runs[i].started < t <==> k <= i)
    ensures OlderThan(runs, t) == runs[k..]
  {
    NoneFit(runs[..k], t);
    AllFit(runs[k..], t);
    assert runs == runs[..k] + runs[k..];
    FilterConcat(runs[..k], runs[k..], Fits(Some(t), {}));
  }

  lemma {:induction false} SuffixBefore(runs: seq<Run>, t: int) returns (k: nat)
    requires Descending(runs)
    ensures k <= |runs| && forall i :: 0 <= i < |runs| ==> (runs[i].started < t <==> k <= i)
  {
    if runs == [] || runs[0].started < t {
      k := 0;
    } else {
      k := SuffixBefore(runs[1..], t);
      k := k + 1;
      forall i | 0 <= i < |runs| ensures runs[i].started < t <==> k <= i {
        if i > 0 {
          assert runs[i] == runs[1..][i - 1];
        }
      }
    }
  }

  lemma PageRange(history: seq<Run>, k: nat, max: int)
    requires k <= |history|
    ensures var page := Capped(history[k..], max);
      && k + |page| <= |history| && page == history[k..k + |page|]
      && (page == [] ==> history[k..] == [])
      && (page != [] ==> page[|page| - 1] == history[k + |page| - 1])
  {
  }

  /** After a page that starts at position k, the rest of the history is what is older than its last row. */
  lemma PageStep(history: seq<Run>, k: nat, max: int, page: seq<Run>)
    requires Descending(history) && k <= |history| && page == Capped(history[k..], max) && page != []
    ensures k + |page| <= |history| && page + history[k + |page|..] == history[k..]
    ensures OlderThan(history, page[|page| - 1].started) == history[k + |page|..]
  {
    PageRange(history, k, max);
    OlderIsSuffix(history, k + |page|, page[|page| - 1].started);
  }

  /** The same pages, cut from a given history. */
  predicate FollowsPages(history: seq<Run>, before: int, max: int, pages: seq<seq<Run>>)
    decreases |pages|
  {
    && pages != []
    && pages[0] == Capped(OlderThan(history, before), max)
    && if pages[0] == [] then |pages| == 1
       else FollowsPages(history, pages[0][|pages[0]| - 1].started, max, pages[1..])
  }

  lemma {:induction false} CursorIsPages(
    live: seq<Run>, stored: seq<Run>, exclude: set<string>, before: int, max: int, pages: seq<seq<Run>>)
    requires FollowsCursor(live, stored, exclude, before, max, pages)
    ensures FollowsPages(History(live, stored, exclude), before, max, pages)
    decreases |pages|
  {
    PageIsOlder(live, stored, before, max, exclude);
    if pages[0] != [] {
      CursorIsPages(live, stored, exclude, pages[0][|pages[0]| - 1].started, max, pages[1..]);
    }
  }

  /** From position k on, the pages lay out the rest of the history exactly. */
  lemma {:induction false} PagesTile(history: seq<Run>, k: nat, before: int, max: int, pages: seq<seq<Run>>)
    requires Descending(history) && k <= |history| && OlderThan(history, before) == history[k..]
    requires FollowsPages(history, before, max, pages)
    ensures Flatten(pages) == history[k..]
    decreases |pages|
  {
    if pages[0] != [] {
      PageStep(history, k, max, pages[0]);
      PagesTile(history, k + |pages[0]|, pages[0][|pages[0]| - 1].started, max, pages[1..]);
    } else {
      PageRange(history, k, max);
      assert pages[1..] == [] && Flatten([]) == [];
    }
  }

  lemma PagesVisitAll(history: seq<Run>, before: int, max: int, pages: seq<seq<Run>>)
    requires Descending(history) && FollowsPages(history, before, max, pages)
    ensures Flatten(pages) == OlderThan(history, before)
  {
    var k := SuffixBefore(history, before);
    OlderIsSuffix(history, k, before);
    PagesTile(history, k, before, max, pages);
  }

  /**
    A walk over history pages from any instant shows every run older than the instant exactly
    once, newest first, whatever the page size.
   */
  lemma CursorVisitsAll(
    live: seq<Run>, stored: seq<Run>, exclude: set<string>, before: int, max: int, pages: seq<seq<Run>>)
    requires DistinctTimes(History(live, stored, exclude))
    requires FollowsCursor(live, stored, exclude, before, max, pages)
    ensures Flatten(pages) == OlderThan(History(live, stored, exclude), before)
  {
    HistoryDescends(live, stored, exclude);
    CursorIsPages(live, stored, exclude, before, max, pages);
    PagesVisitAll(History(live, stored, exclude), before, max, pages);
  }

  lemma {:induction false} PagesEnd(history: seq<Run>, k: nat, before: int, max: int) returns (pages: seq<seq<Run>>)
    requires Descending(history) && k <= |history| && OlderThan(history, before) == history[k..]
    ensures FollowsPages(history, before, max, pages)
    decreases |history| - k
  {
    var page := Capped(history[k..], max);
    if page == [] {
      pages := [[]];
    } else {
      PageStep(history, k, max, page);
      var rest := PagesEnd(history, k + |page|, page[|page| - 1].started, max);
      pages := [page] + rest;
    }
  }

  lemma {:induction false} PagesAreCursor(
    live: seq<Run>, stored: seq<Run>, exclude: set<string>, before: int, max: int, pages: seq<seq<Run>>)
    requires FollowsPages(History(live, stored, exclude), before, max, pages)
    ensures FollowsCursor(live, stored, exclude, before, max, pages)
    decreases |pages|
  {
    PageIsOlder(live, stored, before, max, exclude);
    if pages[0] != [] {
      PagesAreCursor(live, stored, exclude, pages[0][|pages[0]| - 1].started, max, pages[1..]);
    }
  }

  /** Every walk comes to its end. */
  lemma WalkEnds(live: seq<Run>, stored: seq<Run>, exclude: set<string>, before: int, max: int)
    returns (pages: seq<seq<Run>>)
    requires DistinctTimes(History(live, stored, exclude))
    ensures FollowsCursor(live, stored, exclude, before, max, pages)
  {
    var history := History(live, stored, exclude);
    HistoryDescends(live, stored, exclude);
    var k := SuffixBefore(history, before);
    OlderIsSuffix(history, k, before);
    pages := PagesEnd(history, k, before, max);
    PagesAreCursor(live, stored, exclude, before, max, pages);
  }

  // ---------------------------------------------------------------- the unpaged window

  /** The history's terminal rows, which the window caps. */
  function EndedRows(history: seq<Run>): seq<Run> {
    Filter(history, Ended())
  }

  /** The window cuts nothing off, or no active run is as old as the newest row it cuts off. */
  predicate WindowTiles(history: seq<Run>, max: int) {
    var ended := EndedRows(history);
    max <= 0 || |ended| <= max ||
    forall r :: r in history && !Terminal(r.status) ==> ended[max].started < r.started
  }

  /** Every active run and the newest max terminal ones, newest first. */
  predicate IsWindow(window: seq<Run>, history: seq<Run>, max: int) {
    && Ranked(window, Newest)
    && multiset(window) == multiset(Filter(history, Active())) + multiset(Capped(EndedRows(history), max))
  }

  lemma WindowRows(live: seq<Run>, stored: seq<Run>, max: int, exclude: set<string>)
    ensures var history := History(live, stored, exclude);
      IsWindow(Simple(live, stored, None, max, exclude), history, max)
  {
    var shown := Filter(live + Filter(stored, Unseen(Ids(live))), Fits(None, exclude));
    FilterSortBy(shown, Newest, Ended());
    FilterSortBy(shown, Newest, Active());
    SortByRanks(Filter(shown, Active()), Newest);
    SortByRanks(Filter(shown, Active()) + Capped(SortBy(Filter(shown, Ended()), Newest), max), Newest);
  }

  lemma {:induction false} PartsCount(runs: seq<Run>)
    ensures multiset(runs) == multiset(Filter(runs, Active())) + multiset(Filter(runs, Ended()))
  {
    if runs != [] {
      assert runs == [runs[0]] + runs[1..];
      PartsCount(runs[1..]);
    }
  }

  lemma {:induction false} DescendingOnce(runs: seq<Run>, r: Run)
    requires Descending(runs)
    ensures multiset(runs)[r] <= 1 && (r in runs ==> runs[0].started >= r.started)
  {
    if runs != [] {
      assert runs == [runs[0]] + runs[1..];
      DescendingOnce(runs[1..], r);
      if r in runs[1..] {
        var i :| 0 <= i < |runs[1..]| && runs[1..][i] == r;
        assert runs[i + 1] == r;
      }
    }
  }

  lemma {:induction false} DescendingAt(runs: seq<Run>, i: nat, j: nat)
    requires Descending(runs) && i < |runs| && j < |runs| && runs[i].started == runs[j].started
    ensures i == j
  {
  }

  lemma FilterDescends(runs: seq<Run>, keep: Run -> bool)
    requires Descending(runs)
    ensures Descending(Filter(runs, keep))
    decreases |runs|
  {
    if runs != [] {
      FilterDescends(runs[1..], keep);
      FilterMembers(runs[1..], keep);
      var rest := Filter(runs[1..], keep);
      forall j | 0 <= j < |rest| ensures runs[0].started > rest[j].started {
        assert rest[j] in runs[1..];
      }
    }
  }

  lemma SameFirstRow(a: seq<Run>, b: seq<Run>)
    requires Ranked(a, Newest) && Descending(b) && multiset(a) == multiset(b) && a != [] && b != []
    ensures a[0] == b[0]
  {
    assert a[0] in multiset(b) && b[0] in multiset(a);
    DescendingOnce(b, a[0]);
    var j :| 0 <= j < |a| && a[j] == b[0];
    assert j > 0 ==> Newest(a[0]) <= Newest(a[j]);
    var i :| 0 <= i < |b| && b[i] == a[0];
    DescendingAt(b, 0, i);
  }

  /** A ranked list is the descending list with the same rows. */
  lemma {:induction false} SameRows(a: seq<Run>, b: seq<Run>)
    requires Ranked(a, Newest) && Descending(b) && multiset(a) == multiset(b)
    ensures a == b
    decreases |a|
  {
    assert |a| == |multiset(a)| && |b| == |multiset(b)|;
    if a != [] {
      SameFirstRow(a, b);
      assert a == [a[0]] + a[1..] && b == [b[0]] + b[1..];
      assert multiset(a) == multiset{a[0]} + multiset(a[1..]) && multiset(b) == multiset{a[0]} + multiset(b[1..]);
      SameTail(a[0], multiset(a[1..]), multiset(b[1..]));
      SameRows(a[1..], b[1..]);
    }
  }

  lemma SameTail(x: Run, a: multiset<Run>, b: multiset<Run>)
    requires multiset{x} + a == multiset{x} + b
    ensures a == b
  {
    assert a == multiset{x} + a - multiset{x} && b == multiset{x} + b - multiset{x};
  }

  /** Where the newest cut row stands in a history whose active runs are all newer. */
  lemma CutPoint(history: seq<Run>, max: nat) returns (m: nat)
    requires Descending(history) && 0 < max < |EndedRows(history)| && WindowTiles(history, max)
    ensures 0 < m <= |history|
    ensures multiset(history[..m]) == multiset(Filter(history, Active())) + multiset(EndedRows(history)[..max])
  {
    var ended := EndedRows(history);
    FilterMembers(history, Ended());
    FilterDescends(history, Ended());
    assert ended[max] in ended && ended[0] in ended;
    m :| 0 <= m < |history| && history[m] == ended[max];
    var newer, rest := history[..m], history[m..];
    assert history == newer + rest;
    FilterConcat(newer, rest, Ended());
    FilterConcat(newer, rest, Active());
    NoActive(history, m);
    var k := |EndedRows(newer)|;
    assert ended[k] == EndedRows(rest)[0] == ended[max];
    DescendingAt(ended, k, max);
    assert ended[..max] == EndedRows(newer);
    PartsCount(newer);
    assert m == 0 ==> newer == [] && EndedRows(newer) == [];
  }

  lemma NoActive(history: seq<Run>, m: nat)
    requires Descending(history) && m < |history| && Terminal(history[m].status)
    requires forall r :: r in history && !Terminal(r.status) ==> history[m].started < r.started
    ensures Filter(history[m..], Active()) == [] && EndedRows(history[m..]) != []
    ensures EndedRows(history[m..])[0] == history[m]
  {
    forall r | r in history[m..] ensures Terminal(r.status) {
      var i :| 0 <= i < |history[m..]| && history[m..][i] == r;
      assert r == history[m + i] && r in history;
    }
    AllEnded(history[m..]);
  }

  /** The window, then everything older than its oldest row. */
  function WindowThenOlder(window: seq<Run>, history: seq<Run>): seq<Run> {
    if window == [] then [] else window + OlderThan(history, window[|window| - 1].started)
  }

  /** What the documented walk shows. */
  lemma WindowWalkShows(live: seq<Run>, stored: seq<Run>, exclude: set<string>, max: int, pages: seq<seq<Run>>)
    requires DistinctTimes(History(live, stored, exclude))
    requires WalksFromWindow(live, stored, exclude, max, pages)
    ensures Flatten(pages) == WindowThenOlder(pages[0], History(live, stored, exclude))
  {
    HistoryDescends(live, stored, exclude);
    if pages[0] != [] {
      CursorIsPages(live, stored, exclude, pages[0][|pages[0]| - 1].started, max, pages[1..]);
    }
    AfterWindow(History(live, stored, exclude), max, pages);
  }

  lemma AfterWindow(history: seq<Run>, max: int, pages: seq<seq<Run>>)
    requires Descending(history) && pages != []
    requires if pages[0] == [] then |pages| == 1
      else FollowsPages(history, pages[0][|pages[0]| - 1].started, max, pages[1..])
    ensures Flatten(pages) == WindowThenOlder(pages[0], history)
  {
    if pages[0] == [] {
      assert pages[1..] == [] && Flatten([]) == [];
    } else {
      PagesVisitAll(history, pages[0][|pages[0]| - 1].started, max, pages[1..]);
    }
  }

  /** The window is where the history starts. */
  lemma WindowIsPrefix(window: seq<Run>, history: seq<Run>, max: int)
    requires Descending(history) && IsWindow(window, history, max) && WindowTiles(history, max)
    ensures |window| <= |history| && window == history[..|window|] && (window == [] ==> history == [])
  {
    if 0 < max < |EndedRows(history)| {
      var m := CutPoint(history, max);
      SameRows(window, history[..m]);
    } else {
      PartsCount(history);
      SameRows(window, history);
    }
  }

  lemma PrefixThenOlder(history: seq<Run>, m: nat)
    requires Descending(history) && 0 < m <= |history|
    ensures WindowThenOlder(history[..m], history) == history
  {
    assert history[..m][m - 1] == history[m - 1];
    OlderIsSuffix(history, m, history[m - 1].started);
  }

  lemma TilingWindow(window: seq<Run>, history: seq<Run>, max: int)
    requires Descending(history) && IsWindow(window, history, max) && WindowTiles(history, max)
    ensures WindowThenOlder(window, history) == history
  {
    WindowIsPrefix(window, history, max);
    if window != [] {
      PrefixThenOlder(history, |window|);
    }
  }

  lemma ActiveBoundsOldest(window: seq<Run>, history: seq<Run>, max: int, a: Run)
    requires IsWindow(window, history, max) && a in history && !Terminal(a.status)
    ensures window != [] && window[|window| - 1].started <= a.started
  {
    FilterMembers(history, Active());
    assert a in multiset(window);
    var i :| 0 <= i < |window| && window[i] == a;
    assert i < |window| - 1 ==> Newest(window[i]) <= Newest(window[|window| - 1]);
  }

  lemma CutNotInWindow(window: seq<Run>, history: seq<Run>, max: int)
    requires Descending(history) && IsWindow(window, history, max) && 0 < max < |EndedRows(history)|
    ensures EndedRows(history)[max] in history && EndedRows(history)[max] !in window
  {
    var ended := EndedRows(history);
    FilterMembers(history, Ended());
    FilterMembers(history, Active());
    FilterDescends(history, Ended());
    assert ended[max] in ended;
    NotAmongFirst(ended, max);
    assert ended[max] !in multiset(window);
  }

  /** An active run as old as the newest cut row pulls the cursor past that row, which is never shown. */
  lemma CutIsSkipped(window: seq<Run>, history: seq<Run>, max: int)
    requires Descending(history) && IsWindow(window, history, max) && !WindowTiles(history, max)
    ensures EndedRows(history)[max] in history && EndedRows(history)[max] !in WindowThenOlder(window, history)
  {
    var cut := EndedRows(history)[max];
    var a :| a in history && !Terminal(a.status) && a.started <= cut.started;
    ActiveBoundsOldest(window, history, max, a);
    CutNotInWindow(window, history, max);
    FilterMembers(history, Fits(Some(window[|window| - 1].started), {}));
  }

  lemma NotAmongFirst(runs: seq<Run>, m: nat)
    requires Descending(runs) && m < |runs|
    ensures runs[m] !in multiset(runs[..m])
  {
    forall i | 0 <= i < m ensures runs[..m][i] != runs[m] {
      assert runs[i].started > runs[m].started;
    }
  }

  /**
    The documented walk shows the whole history, in order and once, exactly when the window cut
    nothing off or every active run is newer than the newest terminal row it cut off.
   */
  lemma WindowWalkExact(live: seq<Run>, stored: seq<Run>, exclude: set<string>, max: int, pages: seq<seq<Run>>)
    requires DistinctTimes(History(live, stored, exclude))
    requires WalksFromWindow(live, stored, exclude, max, pages)
    ensures Flatten(pages) == History(live, stored, exclude) <==> WindowTiles(History(live, stored, exclude), max)
  {
    var history := History(live, stored, exclude);
    HistoryDescends(live, stored, exclude);
    WindowWalkShows(live, stored, exclude, max, pages);
    WindowRows(live, stored, max, exclude);
    if WindowTiles(history, max) {
      TilingWindow(pages[0], history, max);
    } else {
      CutIsSkipped(pages[0], history, max);
    }
  }

  // ---------------------------------------------------------------- no overlap, and a gap

  lemma TwiceCounts(runs: seq<Run>, i: nat, j: nat)
    requires i < j < |runs| && runs[i] == runs[j]
    ensures multiset(runs)[runs[i]] >= 2
  {
    assert runs == runs[..i] + [runs[i]] + runs[i + 1..j] + [runs[j]] + runs[j + 1..];
  }

  lemma CappedCount(runs: seq<Run>, max: int, r: Run)
    ensures multiset(Capped(runs, max))[r] <= multiset(runs)[r]
  {
    if max > 0 && |runs| > max {
      assert runs == runs[..max] + runs[max..];
    }
  }

  lemma WindowOnce(window: seq<Run>, history: seq<Run>, max: int, r: Run)
    requires Descending(history) && IsWindow(window, history, max)
    ensures multiset(window)[r] <= 1 && (r in window ==> r in history)
  {
    PartsCount(history);
    CappedCount(EndedRows(history), max, r);
    DescendingOnce(history, r);
    assert r in window <==> r in multiset(window);
    assert r in history <==> r in multiset(history);
  }

  /** No row of the window is newer than one before it, or there twice. */
  lemma WindowDescends(window: seq<Run>, history: seq<Run>, max: int)
    requires Descending(history) && IsWindow(window, history, max)
    ensures Descending(window) && forall r :: r in window ==> r in history
  {
    forall r ensures multiset(window)[r] <= 1 && (r in window ==> r in history) {
      WindowOnce(window, history, max, r);
    }
    forall i, j | 0 <= i < j < |window| ensures window[i].started > window[j].started {
      assert Newest(window[i]) <= Newest(window[j]);
      assert window[i] in history && window[j] in history;
      if window[i].started == window[j].started {
        SameTimeSameRun(history, window[i], window[j]);
        TwiceCounts(window, i, j);
      }
    }
  }

  lemma SameTimeSameRun(history: seq<Run>, r: Run, x: Run)
    requires Descending(history) && r in history && x in history && r.started == x.started
    ensures r == x
  {
    var i :| 0 <= i < |history| && history[i] == r;
    var j :| 0 <= j < |history| && history[j] == x;
    DescendingAt(history, i, j);
  }

  /** The pages of the documented walk never overlap, gap or not. */
  lemma WindowWalkDescends(live: seq<Run>, stored: seq<Run>, exclude: set<string>, max: int, pages: seq<seq<Run>>)
    requires DistinctTimes(History(live, stored, exclude))
    requires WalksFromWindow(live, stored, exclude, max, pages)
    ensures Descending(Flatten(pages))
  {
    var history, window := History(live, stored, exclude), pages[0];
    HistoryDescends(live, stored, exclude);
    WindowWalkShows(live, stored, exclude, max, pages);
    WindowRows(live, stored, max, exclude);
    WindowDescends(window, history, max);
    if window != [] {
      OlderDescends(window, history);
    }
  }

  lemma OlderDescends(window: seq<Run>, history: seq<Run>)
    requires Descending(history) && Descending(window) && window != []
    ensures Descending(WindowThenOlder(window, history))
  {
    var t := window[|window| - 1].started;
    FilterDescends(history, Fits(Some(t), {}));
    FilterMembers(history, Fits(Some(t), {}));
    var older := OlderThan(history, t);
    forall j | 0 <= j < |older| ensures older[j].started < t {
      assert older[j] in OlderThan(history, t);
    }
  }

  /** One long-running run, and finished ones that were all queued after it. */
  predicate OldActive(a: Run, ended: seq<Run>) {
    && !Terminal(a.status) && Descending(ended)
    && forall r :: r in ended ==> Terminal(r.status) && r.started > a.started && r.id != a.id
  }

  lemma SortedIs(runs: seq<Run>, sorted: seq<Run>)
    requires Descending(sorted) && multiset(runs) == multiset(sorted)
    ensures SortBy(runs, Newest) == sorted
  {
    SortByRanks(runs, Newest);
    SameRows(SortBy(runs, Newest), sorted);
  }

  lemma OldActiveShown(a: Run, ended: seq<Run>)
    requires OldActive(a, ended)
    ensures Filter([a] + Filter(ended, Unseen(Ids([a]))), Fits(None, {})) == [a] + ended
  {
    forall i | 0 <= i < |ended| ensures Unseen(Ids([a]))(ended[i]) {
      assert ended[i] in ended;
    }
    FilterAll(ended, Unseen(Ids([a])));
    FilterAll([a] + ended, Fits(None, {}));
  }

  lemma OldActiveHistory(a: Run, ended: seq<Run>)
    requires OldActive(a, ended)
    ensures History([a], ended, {}) == ended + [a]
  {
    OldActiveShown(a, ended);
    OldActiveSorted(a, ended);
  }

  lemma OldActiveParts(a: Run, ended: seq<Run>)
    requires OldActive(a, ended)
    ensures Filter([a] + ended, Active()) == [a] && Filter([a] + ended, Ended()) == ended
  {
    AllEnded(ended);
    assert ([a] + ended)[1..] == ended;
  }

  lemma OldActivePage(a: Run, ended: seq<Run>, max: nat)
    requires OldActive(a, ended) && 0 < max < |ended|
    ensures Page([a], ended, max) == ended[..max] + [a]
  {
    SortByOfRanked(ended, Newest);
    OldActiveSorted(a, ended[..max]);
  }

  lemma OldActiveSorted(a: Run, ended: seq<Run>)
    requires OldActive(a, ended)
    ensures SortBy([a] + ended, Newest) == ended + [a]
  {
    forall j | 0 <= j < |ended| ensures ended[j].started > a.started {
      assert ended[j] in ended;
    }
    SortedIs([a] + ended, ended + [a]);
  }

  lemma OldActiveWindow(a: Run, ended: seq<Run>, max: nat)
    requires OldActive(a, ended) && 0 < max < |ended|
    ensures Simple([a], ended, None, max, {}) == ended[..max] + [a]
  {
    OldActiveShown(a, ended);
    OldActiveParts(a, ended);
    OldActivePage(a, ended, max);
  }

  /**
    The walk that fails: the window shows the old active run, so the walk goes on before it, finds
    nothing, and the finished runs beyond the first max are never shown.
   */
  lemma WalkMissesRuns(a: Run, ended: seq<Run>, max: nat, pages: seq<seq<Run>>)
    requires OldActive(a, ended) && 0 < max < |ended| && WalksFromWindow([a], ended, {}, max, pages)
    ensures Flatten(pages) == ended[..max] + [a] && History([a], ended, {}) == ended + [a]
  {
    OldActiveHistory(a, ended);
    OldActiveTimes(a, ended);
    FirstPageIsWindow([a], ended, {}, max, pages);
    OldActiveWindow(a, ended, max);
    WindowWalkShows([a], ended, {}, max, pages);
    OldActiveRest(a, ended, max);
  }

  lemma FirstPageIsWindow(live: seq<Run>, stored: seq<Run>, exclude: set<string>, max: int, pages: seq<seq<Run>>)
    requires WalksFromWindow(live, stored, exclude, max, pages)
    ensures pages != [] && pages[0] == Simple(live, stored, None, max, exclude)
  {
  }

  lemma OldActiveTimes(a: Run, ended: seq<Run>)
    requires OldActive(a, ended)
    ensures DistinctTimes(ended + [a])
  {
    forall j | 0 <= j < |ended| ensures ended[j].started > a.started {
      assert ended[j] in ended;
    }
  }

  lemma OldActiveRest(a: Run, ended: seq<Run>, max: nat)
    requires OldActive(a, ended) && max < |ended|
    ensures WindowThenOlder(ended[..max] + [a], ended + [a]) == ended[..max] + [a]
  {
    forall j | 0 <= j < |ended| ensures ended[j].started >= a.started {
      assert ended[j] in ended;
    }
    NoneFit(ended + [a], a.started);
  }

  lemma {:induction false} FilterAll(runs: seq<Run>, keep: Run -> bool)
    requires forall i :: 0 <= i < |runs| ==> keep(runs[i])
    ensures Filter(runs, keep) == runs
  {
    if runs != [] {
      FilterAll(runs[1..], keep);
    }
  }
}
