/** The Store of internal/backlog, each method proved against BacklogModel. */
module BacklogStore {
  import opened Basics
  import opened BacklogModel
  import opened BacklogLaws

  function DuplicateAt(q: seq<string>, items: seq<string>, maxDepth: nat, i: nat): bool
    requires i < |items|
  {
    items[i] in Merged(q, items[..i], maxDepth)
  }

  /** Positions whose item was already queued, by an earlier push or by this one. */
  function DuplicatesUpTo(q: seq<string>, items: seq<string>, maxDepth: nat, n: nat): set<nat>
    requires n <= |items|
  {
    set i: nat | i < n && DuplicateAt(q, items, maxDepth, i)
  }

  /** What the counts of a push mean. */
  predicate Counted(q: seq<string>, items: seq<string>, maxDepth: nat, c: Counts) {
    && c.depth == |Merged(q, items, maxDepth)|
    && c.queued == |Merged(q, items, maxDepth)| - |q|
    && c.duplicates == |DuplicatesUpTo(q, items, maxDepth, |items|)|
    && c.queued + c.duplicates + c.dropped == |items|
  }

  lemma NextItem(q: seq<string>, items: seq<string>, maxDepth: nat, i: nat)
    requires i < |items|
    ensures var r, x := Merged(q, items[..i], maxDepth), items[i];
      && Merged(q, items[..i + 1], maxDepth) == (if x in r || |r| >= maxDepth then r else r + [x])
      && |DuplicatesUpTo(q, items, maxDepth, i + 1)|
         == |DuplicatesUpTo(q, items, maxDepth, i)| + if x in r then 1 else 0
  {
    assert items[..i + 1] == items[..i] + [items[i]];
    MergedSnoc(q, items[..i], items[i], maxDepth);
    var before, after := DuplicatesUpTo(q, items, maxDepth, i), DuplicatesUpTo(q, items, maxDepth, i + 1);
    if DuplicateAt(q, items, maxDepth, i) {
      assert after == before + {i};
    } else {
      assert after == before;
    }
  }

  /** The validation loop: the first bad item decides. */
  method CheckItems(items: seq<string>, maxBytes: nat) returns (error: Option<Error>)
    ensures error == ItemError(items, maxBytes)
    ensures error.None? <==> forall i :: 0 <= i < |items| ==> 0 < |items[i]| <= maxBytes
    ensures error.Some? ==>
      exists i ::
        && 0 <= i < |items| && (forall j :: 0 <= j < i ==> 0 < |items[j]| <= maxBytes)
        && if items[i] == "" then error == Some(EmptyItem) else |items[i]| > maxBytes && error == Some(ItemTooLarge)
  {
    var i := 0;
    while i < |items|
      invariant 0 <= i <= |items| && ItemError(items[i..], maxBytes) == ItemError(items, maxBytes)
      invariant forall j :: 0 <= j < i ==> 0 < |items[j]| <= maxBytes
    {
      assert items[i..][1..] == items[i + 1..];
      if items[i] == "" {
        return Some(EmptyItem);
      }
      if |items[i]| > maxBytes {
        return Some(ItemTooLarge);
      }
      i := i + 1;
    }
    return None;
  }

  /** The merge loop, with its set of items already present. */
  method AddItems(start: seq<string>, items: seq<string>, maxDepth: nat) returns (q: seq<string>, counts: Counts)
    ensures q == Merged(start, items, maxDepth) && Counted(start, items, maxDepth, counts)
  {
    q := start;
    var present := set x | x in start;
    var queued, duplicates, dropped := 0, 0, 0;
    var i := 0;
    while i < |items|
      invariant 0 <= i <= |items| && q == Merged(start, items[..i], maxDepth)
      invariant forall x :: x in present <==> x in q
      invariant queued + |start| == |q| && queued + duplicates + dropped == i
      invariant duplicates == |DuplicatesUpTo(start, items, maxDepth, i)|
    {
      NextItem(start, items, maxDepth, i);
      var it := items[i];
      i := i + 1;
      if it in present {
        duplicates := duplicates + 1;
      } else if |q| >= maxDepth {
        dropped := dropped + 1;
      } else {
        q := q + [it];
        present := present + {it};
        queued := queued + 1;
      }
    }
    assert items[..i] == items;
    counts := Counts(queued, duplicates, dropped, |q|);
  }

  class Backlog {
    const cfg: Config
    var shelves: Shelves
    var files: Shelves

    function Data(): Store
      reads this
    {
      Store(shelves, files)
    }

    /** Memory starts as the files say. */
    constructor (cfg: Config, files: Shelves)
      requires Configured(cfg)
      ensures this.cfg == cfg && Data() == Store(files, files)
    {
      this.cfg := cfg;
      this.files, shelves := files, files;
    }

    /** The rename happens, or the old file stays. */
    method Persist(ns: string, written: bool)
      modifies this`files
      ensures Data() == if written then Persisted(old(Data()), ns) else old(Data())
    {
      if written {
        files := files[ns := if ns in shelves then shelves[ns] else Null];
      }
    }

    method Push(ns: string, name: string, items: seq<string>, written: bool) returns (outcome: PushOutcome)
      requires Configured(cfg)
      modifies this
      ensures Data() == AfterPush(cfg, old(Data()), ns, name, items, written)
      ensures outcome.Queued? <==> PushSucceeds(cfg, old(Data()), ns, name, items, written)
      ensures outcome.Panicked? <==> Panics(cfg, old(Data()), ns, name, items)
      ensures outcome.Queued? ==> Counted(QueueOf(old(Data()).mem, ns, name), items, cfg.maxDepth, outcome.counts)
      ensures outcome.PushRefused? ==>
        var e := PushError(cfg, old(Data()), ns, name, items);
        outcome.error == if e.Some? then e.value else PersistFailed
      ensures outcome == PushRefused(BadNamespace) <==> !ValidName(ns)
      ensures outcome == PushRefused(BadName) <==> ValidName(ns) && !ValidName(name)
      ensures outcome == PushRefused(TooManyNamespaces) ==>
        ns !in old(shelves) && |old(shelves)| >= cfg.maxNamespaces
      ensures outcome == PushRefused(TooManyQueues) ==>
        name !in QueuesOf(old(shelves), ns) && |QueuesOf(old(shelves), ns)| >= cfg.maxQueues
      ensures outcome == PushRefused(PersistFailed) ==> !written
    {
      if !ValidName(ns) {
        return PushRefused(BadNamespace);
      }
      if !ValidName(name) {
        return PushRefused(BadName);
      }
      var bad := CheckItems(items, cfg.maxItemBytes);
      if bad.Some? {
        return PushRefused(bad.value);
      }
      outcome := PushChecked(ns, name, items, written);
    }

    /** Push under the mutex, its arguments checked. */
    method PushChecked(ns: string, name: string, items: seq<string>, written: bool) returns (outcome: PushOutcome)
      requires Configured(cfg) && NameError(ns, name).None? && ItemError(items, cfg.maxItemBytes).None?
      modifies this
      ensures Data() == AfterPush(cfg, old(Data()), ns, name, items, written)
      ensures outcome.Queued? <==> PushSucceeds(cfg, old(Data()), ns, name, items, written)
      ensures outcome.Panicked? <==> Panics(cfg, old(Data()), ns, name, items)
      ensures outcome.Queued? ==> Counted(QueueOf(old(Data()).mem, ns, name), items, cfg.maxDepth, outcome.counts)
      ensures outcome.PushRefused? ==>
        outcome.error == var e := RoomError(cfg, old(Data()), ns, name); if e.Some? then e.value else PersistFailed
    {
      var existed := ns in shelves;
      if !existed {
        if |shelves| >= cfg.maxNamespaces {
          return PushRefused(TooManyNamespaces);
        }
        shelves := shelves[ns := Shelf(map[])];
      }
      var queues := QueuesOf(shelves, ns);
      var queueExisted := name in queues;
      if !queueExisted && |queues| >= cfg.maxQueues {
        return PushRefused(TooManyQueues);
      }
      var q := if queueExisted then queues[name] else [];
      var merged, counts := AddItems(q, items, cfg.maxDepth);
      if shelves[ns].Null? {
        return Panicked;
      }
      MergedLaw(q, items, cfg.maxDepth);
      StoreQueue(ns, name, merged, counts.queued, queueExisted, existed, written);
      if !written {
        assert shelves == old(shelves);
        return PushRefused(PersistFailed);
      }
      return Queued(counts);
    }

    /** Puts the merged queue in place and persists; a failed write undoes it, and a namespace just made. */
    method StoreQueue(
      ns: string, name: string, merged: seq<string>, queued: nat, queueExisted: bool, existed: bool, written: bool)
      requires ns in shelves && shelves[ns].Shelf? && queued <= |merged|
      requires if queueExisted
        then name in shelves[ns].queues && shelves[ns].queues[name] == merged[..|merged| - queued]
        else name !in shelves[ns].queues
      modifies this
      ensures written ==> Data() == Persisted(WithQueue(old(Data()), ns, name, merged), ns)
      ensures !written ==> files == old(files) && shelves == if existed then old(shelves) else old(shelves) - {ns}
    {
      ghost var queues := shelves[ns].queues;
      shelves := shelves[ns := Shelf(shelves[ns].queues[name := merged])];
      Persist(ns, written);
      if !written {
        Rollback(ns, name, merged[..|merged| - queued], queueExisted, existed);
        assert queueExisted ==> queues[name := merged][name := queues[name]] == queues;
        assert !queueExisted ==> queues[name := merged] - {name} == queues;
        assert old(shelves)[ns := Shelf(queues)] == old(shelves);
      }
    }

    method Rollback(ns: string, name: string, prev: seq<string>, queueExisted: bool, existed: bool)
      requires ns in shelves && shelves[ns].Shelf?
      modifies this`shelves
      ensures shelves == if !existed then old(shelves) - {ns}
        else
          var queues := old(shelves)[ns].queues;
          old(shelves)[ns := Shelf(if queueExisted then queues[name := prev] else queues - {name})]
    {
      var queues := shelves[ns].queues;
      shelves := shelves[ns := Shelf(if queueExisted then queues[name := prev] else queues - {name})];
      if !existed {
        shelves := shelves - {ns};
      }
    }

    method Take(ns: string, name: string, count: int, written: bool, tidied: bool) returns (outcome: TakeOutcome)
      modifies this
      ensures Data() == AfterTake(old(Data()), ns, name, count, written, tidied)
      ensures var n, q := TakeSize(old(Data()), ns, name, count), QueueOf(old(Data()).mem, ns, name);
        && (outcome.TakeRefused? <==> NameError(ns, name).Some? || (n > 0 && !written))
        && (outcome.Taken? ==> outcome == Taken(q[..n], |q| - n))
      ensures var q := QueueOf(old(Data()).mem, ns, name);
        && (outcome == TakeRefused(BadNamespace) <==> !ValidName(ns))
        && (outcome == TakeRefused(BadName) <==> ValidName(ns) && !ValidName(name))
        && (ValidName(ns) && ValidName(name) ==>
              && (outcome == TakeRefused(PersistFailed) <==> count > 0 && q != [] && !written)
              && (count <= 0 ==> outcome == Taken([], |q|))
              && (outcome.Taken? && count > 0 ==>
                    && |outcome.items| == Min(count, |q|) && outcome.items <= q
                    && outcome.left == |q| - |outcome.items|))
    {
      if !ValidName(ns) {
        return TakeRefused(BadNamespace);
      }
      if !ValidName(name) {
        return TakeRefused(BadName);
      }
      var q := QueueOf(shelves, ns, name);
      if count <= 0 {
        return Taken([], |q|);
      }
      if |q| == 0 {
        return Taken([], 0);
      }
      var n := if count > |q| then |q| else count;
      var queues := shelves[ns].queues;
      shelves := shelves[ns := Shelf(queues[name := q[n..]])];
      Persist(ns, written);
      if !written {
        shelves := shelves[ns := Shelf(queues[name := q])];
        assert queues[name := q] == queues;
        assert shelves == old(shelves);
        return TakeRefused(PersistFailed);
      }
      if |q[n..]| == 0 {
        Drain(ns, name, tidied);
      }
      return Taken(q[..n], |q| - n);
    }

    method Drain(ns: string, name: string, tidied: bool)
      requires ns in shelves && shelves[ns].Shelf?
      modifies this
      ensures Data() ==
        if tidied then Persisted(Tidied(old(Data()), ns, name), ns) else Tidied(old(Data()), ns, name)
    {
      var queues := shelves[ns].queues - {name};
      shelves := if |queues| == 0 then shelves - {ns} else shelves[ns := Shelf(queues)];
      Persist(ns, tidied);
    }
  }
}
