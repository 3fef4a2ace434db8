/** Conservation, bounds and the agreement of memory and disk, over every history of BacklogModel. */
module BacklogLaws {
  import opened Basics
  import opened BacklogModel

  // ---------------------------------------------------------------- merging

  /** A push keeps every queued item in place, adds no duplicate and respects the depth. */
  lemma {:induction false} MergedLaw(q: seq<string>, items: seq<string>, maxDepth: nat)
    ensures var r := Merged(q, items, maxDepth);
      && q <= r
      && (NoDup(q) ==> NoDup(r))
      && |r| <= Max(|q|, maxDepth)
      && (forall x :: x in r ==> x in q || x in items)
      && (forall x :: x in items ==> x in r || |r| >= maxDepth)
    decreases |items|
  {
    if items != [] {
      var x := items[0];
      assert items == [x] + items[1..];
      var q' := if x in q || |q| >= maxDepth then q else q + [x];
      MergedLaw(q', items[1..], maxDepth);
      var r := Merged(q', items[1..], maxDepth);
      if x in q' {
        var i :| 0 <= i < |q'| && q'[i] == x;
        assert r[i] == x;
      }
    }
  }

  /** Below the depth a push is a set union. */
  lemma MergedUnion(q: seq<string>, items: seq<string>, maxDepth: nat, x: string)
    requires |Merged(q, items, maxDepth)| < maxDepth
    ensures x in Merged(q, items, maxDepth) <==> x in q || x in items
  {
    MergedLaw(q, items, maxDepth);
  }

  lemma {:induction false} NothingToMerge(q: seq<string>, items: seq<string>, maxDepth: nat)
    requires forall x :: x in items ==> x in q || |q| >= maxDepth
    ensures Merged(q, items, maxDepth) == q
  {
    if items != [] {
      NothingToMerge(q, items[1..], maxDepth);
    }
  }

  /** Pushing the same candidates again changes nothing. */
  lemma RePush(q: seq<string>, items: seq<string>, maxDepth: nat)
    ensures Merged(Merged(q, items, maxDepth), items, maxDepth) == Merged(q, items, maxDepth)
  {
    MergedLaw(q, items, maxDepth);
    NothingToMerge(Merged(q, items, maxDepth), items, maxDepth);
  }

  lemma {:induction false} MergedSnoc(q: seq<string>, items: seq<string>, x: string, maxDepth: nat)
    ensures var r := Merged(q, items, maxDepth);
      Merged(q, items + [x], maxDepth) == if x in r || |r| >= maxDepth then r else r + [x]
    decreases |items|
  {
    if items == [] {
      assert items + [x] == [x] && [x][1..] == [];
    } else {
      assert (items + [x])[1..] == items[1..] + [x];
      MergedSnoc(if items[0] in q || |q| >= maxDepth then q else q + [items[0]], items[1..], x, maxDepth);
    }
  }

  /** The items not queued before, each where it first occurs. */
  function Fresh(q: seq<string>, items: seq<string>): seq<string> {
    if items == [] then []
    else
      var front, x := items[..|items| - 1], items[|items| - 1];
      Fresh(q, front) + if x in q || x in front then [] else [x]
  }

  /** As many of them as there is room for. */
  function Admitted(q: seq<string>, items: seq<string>, maxDepth: nat): seq<string> {
    var found := Fresh(q, items);
    found[..Min(|found|, Max(maxDepth - |q|, 0))]
  }

  /** A push appends the new items in the order in which they are offered, as far as they fit. */
  lemma {:induction false} MergedExactly(q: seq<string>, items: seq<string>, maxDepth: nat)
    ensures Merged(q, items, maxDepth) == q + Admitted(q, items, maxDepth)
  {
    if items != [] {
      var front, x := items[..|items| - 1], items[|items| - 1];
      assert items == front + [x];
      MergedExactly(q, front, maxDepth);
      MergedSnoc(q, front, x, maxDepth);
      MergedLaw(q, front, maxDepth);
      AdmittedSnoc(q, front, x, maxDepth);
    }
  }

  lemma AdmittedSnoc(q: seq<string>, items: seq<string>, x: string, maxDepth: nat)
    ensures Admitted(q, items + [x], maxDepth) ==
      Admitted(q, items, maxDepth) +
      if x in q || x in items || |q| + |Admitted(q, items, maxDepth)| >= maxDepth then [] else [x]
  {
    assert (items + [x])[..|items|] == items;
    assert Fresh(q, items + [x]) == Fresh(q, items) + if x in q || x in items then [] else [x];
  }

  lemma {:induction false} ItemErrorExactly(items: seq<string>, maxBytes: nat)
    ensures ItemError(items, maxBytes).None? <==> forall x :: x in items ==> 0 < |x| <= maxBytes
  {
    if items != [] {
      ItemErrorExactly(items[1..], maxBytes);
      assert items == [items[0]] + items[1..];
    }
  }

  // ---------------------------------------------------------------- one call

  /** When a push succeeds, and what the queue then is, in memory and on disk. */
  lemma PushExactly(cfg: Config, d: Store, ns: string, name: string, items: seq<string>, written: bool)
    ensures PushSucceeds(cfg, d, ns, name, items, written) <==>
      && written && ValidName(ns) && ValidName(name) && (forall x :: x in items ==> 0 < |x| <= cfg.maxItemBytes)
      && if ns !in d.mem then |d.mem| < cfg.maxNamespaces && 0 < cfg.maxQueues
         else d.mem[ns].Shelf? && (name in d.mem[ns].queues || |d.mem[ns].queues| < cfg.maxQueues)
    ensures var d', q := AfterPush(cfg, d, ns, name, items, written), QueueOf(d.mem, ns, name);
      if PushSucceeds(cfg, d, ns, name, items, written)
      then QueueOf(d'.mem, ns, name) == QueueOf(d'.disk, ns, name) == q + Admitted(q, items, cfg.maxDepth)
      else d' == d
  {
    ItemErrorExactly(items, cfg.maxItemBytes);
    MergedExactly(QueueOf(d.mem, ns, name), items, cfg.maxDepth);
  }

  /** A take that is written down removes as many items from the front as it asks for and there are. */
  lemma TakeExactly(d: Store, ns: string, name: string, count: int, written: bool, tidied: bool)
    ensures var d', q := AfterTake(d, ns, name, count, written, tidied), QueueOf(d.mem, ns, name);
      if ValidName(ns) && ValidName(name) && 0 < count && q != [] && written
      then
        QueueOf(d'.mem, ns, name) == QueueOf(d'.disk, ns, name) == if count < |q| then q[count..] else []
      else d' == d
  {
    TakeMoves(d, ns, name, count, written, tidied, ns, name);
  }

  // ---------------------------------------------------------------- what every call keeps

  ghost predicate Agree(d: Store) {
    forall ns, name :: QueueOf(d.mem, ns, name) == QueueOf(d.disk, ns, name)
  }

  ghost predicate Bounded(cfg: Config, d: Store) {
    forall ns, name :: NoDup(QueueOf(d.mem, ns, name)) && |QueueOf(d.mem, ns, name)| <= cfg.maxDepth
  }

  /** A crash after the call's last effect changes no queue. */
  lemma StepQueue(cfg: Config, d: Store, c: Call, ns: string, name: string)
    requires Agree(d)
    ensures QueueOf(Step(cfg, d, c).mem, ns, name) == QueueOf(Done(cfg, d, c).mem, ns, name)
  {
    DoneAgrees(cfg, d, c);
  }

  /** What one call does to one queue: it takes from the front and adds at the back. */
  lemma QueueMoves(cfg: Config, d: Store, c: Call, ns: string, name: string)
    ensures RemovedBy(d, c, ns, name) + QueueOf(Done(cfg, d, c).mem, ns, name) ==
      QueueOf(d.mem, ns, name) + AcceptedBy(cfg, d, c, ns, name)
  {
    match c {
      case Push(cns, cname, items, written, _) =>
        MergedLaw(QueueOf(d.mem, cns, cname), items, cfg.maxDepth);
      case Take(cns, cname, count, written, tidied, _) =>
        TakeMoves(d, cns, cname, count, written, tidied, ns, name);
      case Restart =>
    }
  }

  lemma TidiedQueues(d: Store, ns: string, name: string, ns': string, name': string)
    requires QueueOf(d.mem, ns, name) == []
    ensures QueueOf(Tidied(d, ns, name).mem, ns', name') == QueueOf(d.mem, ns', name')
  {
  }

  lemma TakeMoves(
    d: Store, ns: string, name: string, count: int, written: bool, tidied: bool, ns': string, name': string)
    ensures QueueOf(AfterTake(d, ns, name, count, written, tidied).mem, ns', name') ==
      var q := QueueOf(d.mem, ns', name');
      if ns == ns' && name == name' && TakeSucceeds(d, ns, name, count, written)
      then q[TakeSize(d, ns, name, count)..] else q
  {
    if TakeSucceeds(d, ns, name, count, written) {
      var rest := QueueOf(d.mem, ns, name)[TakeSize(d, ns, name, count)..];
      var kept := Persisted(WithQueue(d, ns, name, rest), ns);
      if rest == [] {
        TidiedQueues(kept, ns, name, ns', name');
      }
    }
  }

  /** A written file agrees with memory; the others are as they were. */
  lemma PersistedAgrees(d: Store, ns: string)
    requires forall ns', name' :: ns' != ns ==> QueueOf(d.mem, ns', name') == QueueOf(d.disk, ns', name')
    ensures Agree(Persisted(d, ns))
  {
  }

  lemma DoneAgrees(cfg: Config, d: Store, c: Call)
    requires Agree(d)
    ensures Agree(Done(cfg, d, c))
  {
    match c {
      case Push(ns, name, items, written, _) =>
        if PushSucceeds(cfg, d, ns, name, items, written) {
          PersistedAgrees(WithQueue(d, ns, name, Merged(QueueOf(d.mem, ns, name), items, cfg.maxDepth)), ns);
        }
      case Take(ns, name, count, written, tidied, _) =>
        TakeAgrees(d, ns, name, count, written, tidied);
      case Restart =>
    }
  }

  lemma TakeAgrees(d: Store, ns: string, name: string, count: int, written: bool, tidied: bool)
    requires Agree(d)
    ensures Agree(AfterTake(d, ns, name, count, written, tidied))
  {
    if TakeSucceeds(d, ns, name, count, written) {
      var rest := QueueOf(d.mem, ns, name)[TakeSize(d, ns, name, count)..];
      var kept := Persisted(WithQueue(d, ns, name, rest), ns);
      PersistedAgrees(WithQueue(d, ns, name, rest), ns);
      if rest == [] {
        var tidy := Tidied(kept, ns, name);
        forall ns', name' ensures QueueOf(tidy.mem, ns', name') == QueueOf(kept.mem, ns', name') {
          TidiedQueues(kept, ns, name, ns', name');
        }
        assert Agree(tidy);
        PersistedAgrees(tidy, ns);
      }
    }
  }

  lemma QueueBounded(cfg: Config, d: Store, c: Call, ns: string, name: string)
    requires NoDup(QueueOf(d.mem, ns, name)) && |QueueOf(d.mem, ns, name)| <= cfg.maxDepth
    ensures NoDup(QueueOf(Done(cfg, d, c).mem, ns, name)) && |QueueOf(Done(cfg, d, c).mem, ns, name)| <= cfg.maxDepth
  {
    match c {
      case Push(cns, cname, items, written, _) => MergedLaw(QueueOf(d.mem, cns, cname), items, cfg.maxDepth);
      case Take(cns, cname, count, written, tidied, _) => TakeMoves(d, cns, cname, count, written, tidied, ns, name);
      case Restart =>
    }
  }

  lemma StepBounded(cfg: Config, d: Store, c: Call)
    requires Agree(d) && Bounded(cfg, d)
    ensures Bounded(cfg, Step(cfg, d, c))
  {
    forall ns, name
      ensures NoDup(QueueOf(Step(cfg, d, c).mem, ns, name)) && |QueueOf(Step(cfg, d, c).mem, ns, name)| <= cfg.maxDepth
    {
      assert NoDup(QueueOf(d.mem, ns, name));
      QueueBounded(cfg, d, c, ns, name);
      StepQueue(cfg, d, c, ns, name);
    }
  }

  // ---------------------------------------------------------------- the laws

  lemma {:induction false} AfterAgrees(cfg: Config, calls: seq<Call>)
    ensures Agree(After(cfg, calls)) && Bounded(cfg, After(cfg, calls))
  {
    if calls != [] {
      var front, c := calls[..|calls| - 1], calls[|calls| - 1];
      AfterAgrees(cfg, front);
      DoneAgrees(cfg, After(cfg, front), c);
      StepBounded(cfg, After(cfg, front), c);
    }
  }

  /**
    Under any pattern of failed writes, crashes and restarts: what has left a queue, followed by
    what it still holds, is what the pushes that reached its file added, in order.
   */
  lemma {:induction false} Conservation(cfg: Config, calls: seq<Call>, ns: string, name: string)
    ensures RemovedAll(cfg, calls, ns, name) + QueueOf(After(cfg, calls).mem, ns, name)
         == Accepted(cfg, calls, ns, name)
  {
    if calls != [] {
      var front, c := calls[..|calls| - 1], calls[|calls| - 1];
      var d := After(cfg, front);
      Conservation(cfg, front, ns, name);
      AfterAgrees(cfg, front);
      QueueMoves(cfg, d, c, ns, name);
      StepQueue(cfg, d, c, ns, name);
      var was, now := QueueOf(d.mem, ns, name), QueueOf(After(cfg, calls).mem, ns, name);
      calc {
        RemovedAll(cfg, calls, ns, name) + now;
        RemovedAll(cfg, front, ns, name) + RemovedBy(d, c, ns, name) + now;
        { Regroup(RemovedAll(cfg, front, ns, name), RemovedBy(d, c, ns, name), now); }
        RemovedAll(cfg, front, ns, name) + (was + AcceptedBy(cfg, d, c, ns, name));
        { Regroup(RemovedAll(cfg, front, ns, name), was, AcceptedBy(cfg, d, c, ns, name)); }
        Accepted(cfg, calls, ns, name);
      }
    }
  }

  lemma {:induction false} RemovedSplits(cfg: Config, calls: seq<Call>, ns: string, name: string)
    ensures multiset(RemovedAll(cfg, calls, ns, name))
         == multiset(TakenAll(cfg, calls, ns, name)) + multiset(LostAll(cfg, calls, ns, name))
  {
    if calls != [] {
      RemovedSplits(cfg, calls[..|calls| - 1], ns, name);
    }
  }

  lemma {:induction false} NothingLost(cfg: Config, calls: seq<Call>, ns: string, name: string)
    requires forall c :: c in calls ==> !c.Take? || !c.crashes
    ensures TakenAll(cfg, calls, ns, name) == RemovedAll(cfg, calls, ns, name)
  {
    if calls != [] {
      assert calls[|calls| - 1] in calls;
      NothingLost(cfg, calls[..|calls| - 1], ns, name);
    }
  }

  /**
    Hence every accepted item is handed out once, lost once in a crash of the take that removed it,
    or still held; and without such a crash it is handed out in order or still held.
   */
  lemma AtMostOnce(cfg: Config, calls: seq<Call>, ns: string, name: string)
    ensures var held := QueueOf(After(cfg, calls).mem, ns, name);
      && multiset(TakenAll(cfg, calls, ns, name)) + multiset(LostAll(cfg, calls, ns, name)) + multiset(held)
         == multiset(Accepted(cfg, calls, ns, name))
      && ((forall c :: c in calls ==> !c.Take? || !c.crashes) ==>
            TakenAll(cfg, calls, ns, name) + held == Accepted(cfg, calls, ns, name))
  {
    Conservation(cfg, calls, ns, name);
    RemovedSplits(cfg, calls, ns, name);
    if forall c :: c in calls ==> !c.Take? || !c.crashes {
      NothingLost(cfg, calls, ns, name);
    }
  }

  lemma Regroup(a: seq<string>, b: seq<string>, c: seq<string>)
    ensures a + b + c == a + (b + c)
  {
  }

  // ---------------------------------------------------------------- a drained namespace after a restart

  /** Without a restart no push meets a nil map. */
  lemma {:induction false} NoPanicInOneProcess(cfg: Config, calls: seq<Call>, ns: string)
    requires forall c :: c in calls ==> !Restarts(c)
    ensures ns in After(cfg, calls).mem ==> After(cfg, calls).mem[ns].Shelf?
  {
    if calls != [] {
      NoPanicInOneProcess(cfg, calls[..|calls| - 1], ns);
      assert calls[|calls| - 1] in calls;
    }
  }

  /** Push one item, take it, restart: the next push to that namespace panics. */
  lemma DrainedReloadPanics(cfg: Config, ns: string, name: string, item: string)
    requires Configured(cfg) && ValidName(ns) && ValidName(name) && 0 < |item| <= cfg.maxItemBytes
    ensures var calls := [Push(ns, name, [item], true, false), Take(ns, name, 1, true, true, false), Restart];
      Panics(cfg, After(cfg, calls), ns, name, [item])
  {
    var push, take := Push(ns, name, [item], true, false), Take(ns, name, 1, true, true, false);
    var d1 := Store(map[ns := Shelf(map[name := [item]])], map[ns := Shelf(map[name := [item]])]);
    PushOne(cfg, ns, name, item);
    AfterMore(cfg, [], push);
    assert [] + [push] == [push] && [push] + [take] == [push, take];
    DrainOne(d1, ns, name, item);
    AfterMore(cfg, [push], take);
    AfterMore(cfg, [push, take], Restart);
    assert [push, take] + [Restart] == [push, take, Restart];
    assert ItemError([item], cfg.maxItemBytes).None?;
  }

  lemma AfterMore(cfg: Config, calls: seq<Call>, c: Call)
    ensures After(cfg, calls + [c]) == Step(cfg, After(cfg, calls), c)
  {
    assert (calls + [c])[..|calls|] == calls;
  }

  lemma PushOne(cfg: Config, ns: string, name: string, item: string)
    requires Configured(cfg) && ValidName(ns) && ValidName(name) && 0 < |item| <= cfg.maxItemBytes
    ensures AfterPush(cfg, EMPTY, ns, name, [item], true) ==
      Store(map[ns := Shelf(map[name := [item]])], map[ns := Shelf(map[name := [item]])])
  {
    assert ItemError([item], cfg.maxItemBytes).None?;
    var none: seq<string> := [];
    assert Merged(none, [item], cfg.maxDepth) == Merged(none + [item], [item][1..], cfg.maxDepth);
    assert none + [item] == [item] && [item][1..] == none;
    assert Merged([item], none, cfg.maxDepth) == [item];
    assert QueueOf(EMPTY.mem, ns, name) == none;
    assert WithQueue(EMPTY, ns, name, [item]).mem == map[ns := Shelf(map[name := [item]])];
  }

  lemma DrainOne(d: Store, ns: string, name: string, item: string)
    requires ValidName(ns) && ValidName(name)
    requires d == Store(map[ns := Shelf(map[name := [item]])], map[ns := Shelf(map[name := [item]])])
    ensures AfterTake(d, ns, name, 1, true, true) == Store(map[], map[ns := Null])
  {
    var kept := Persisted(WithQueue(d, ns, name, []), ns);
    assert [item][1..] == [] && TakeSize(d, ns, name, 1) == 1;
    assert map[name := [item]][name := []] - {name} == map[];
    assert Tidied(kept, ns, name).mem == map[];
  }

  /** A namespace nil in memory and on disk stays so: a push panics, a take finds nothing, a restart reads null. */
  predicate IsDead(d: Store, ns: string) {
    ns in d.mem && d.mem[ns].Null? && ns in d.disk && d.disk[ns].Null?
  }

  lemma DeadStep(cfg: Config, d: Store, c: Call, ns: string)
    requires IsDead(d, ns)
    ensures IsDead(Step(cfg, d, c), ns)
  {
    if c.Take? && c.ns != ns {
      assert QueuesOf(d.mem, ns) == map[];
    }
  }

  /** From then on the namespace accepts nothing, whatever calls and restarts follow. */
  lemma {:induction false} NullForever(cfg: Config, calls: seq<Call>, k: nat, ns: string)
    requires k <= |calls| && IsDead(After(cfg, calls[..k]), ns)
    ensures IsDead(After(cfg, calls), ns)
  {
    assert calls[..|calls|] == calls;
    if k < |calls| {
      var front := calls[..|calls| - 1];
      assert front[..k] == calls[..k];
      NullForever(cfg, front, k, ns);
      DeadStep(cfg, After(cfg, front), calls[|calls| - 1], ns);
    }
  }

  /**
    A push that passes every check panics exactly when the namespace came back from disk as
    `null`: it is in memory without queues, and then its file is `null` and its queues are empty.
   */
  lemma PanicsExactly(cfg: Config, calls: seq<Call>, ns: string, name: string, items: seq<string>)
    requires PushError(cfg, After(cfg, calls), ns, name, items).None?
    ensures var d := After(cfg, calls);
      && (Panics(cfg, d, ns, name, items) <==> ns in d.mem && ns in d.disk && d.disk[ns].Null?)
      && (Panics(cfg, d, ns, name, items) ==> (exists c :: c in calls && Restarts(c)) && QueuesOf(d.disk, ns) == map[])
  {
    if forall c :: c in calls ==> !Restarts(c) {
      NoPanicInOneProcess(cfg, calls, ns);
    }
    NullShelves(cfg, calls, ns);
  }

  /** A namespace is nil in memory exactly when it is there and its file is `null`. */
  lemma {:induction false} NullShelves(cfg: Config, calls: seq<Call>, ns: string)
    ensures var d := After(cfg, calls);
      ns in d.mem ==> (d.mem[ns].Null? <==> ns in d.disk && d.disk[ns].Null?)
  {
    if calls != [] {
      NullShelves(cfg, calls[..|calls| - 1], ns);
    }
  }
}
