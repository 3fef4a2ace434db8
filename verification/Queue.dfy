/** The Store of internal/queue/queue.go, each method proved against the transactions of QueueModel. */
module WorkQueue {
  import opened Basics
  import opened QueueModel

  datatype EnqueueResult = Stored(entry: Entry) | Rejected | TooManyKeys

  type Item = (Id, Entry)

  predicate SortedByRunAt(items: seq<Item>) {
    forall i, j :: 0 <= i < j < |items| ==> items[i].1.runAt <= items[j].1.runAt
  }

  function RunAt(item: Item): Time {
    item.1.runAt
  }

  /** The items are the entries of exactly these keys, each once. */
  predicate ListsOnce(items: seq<Item>, entries: map<Id, Entry>, ids: set<Id>) {
    && |items| == |ids| && ids <= entries.Keys
    && (forall item :: item in items ==> item.0 in ids && item.1 == entries[item.0])
    && (forall id :: id in ids ==> (id, entries[id]) in items)
  }

  lemma SameItems(a: seq<Item>, b: seq<Item>, entries: map<Id, Entry>, ids: set<Id>)
    requires multiset(a) == multiset(b) && ListsOnce(a, entries, ids)
    ensures ListsOnce(b, entries, ids)
  {
    assert |a| == |multiset(a)| && |b| == |multiset(b)|;
    forall item ensures item in a <==> item in b {
      assert item in a <==> item in multiset(a);
      assert item in b <==> item in multiset(b);
    }
  }

  class Queue {
    const cfg: Config
    var entries: map<Id, Entry>
    var fired: map<Id, Time>
    var wake: bool  // the one-slot wake channel is full

    function Data(): Store
      reads this
    {
      Store(entries, fired)
    }

    constructor (cfg: Config)
      requires Configured(cfg)
      ensures this.cfg == cfg && Data() == Store(map[], map[]) && !wake
    {
      this.cfg := cfg;
      entries, fired, wake := map[], map[], false;
    }

    method Enqueue(id: Id, delay: Time, payload: Option<string>, now: Time) returns (result: EnqueueResult)
      requires Configured(cfg)
      modifies this`entries
      ensures result.Rejected? <==> !Acceptable(cfg, id, delay, payload)
      ensures result.TooManyKeys? <==> Acceptable(cfg, id, delay, payload) && !HasRoom(old(Data()), id)
      ensures result.Stored? ==>
        && result.entry == Upserted(cfg, old(Data()), id, delay, payload, now)
        && entries == old(entries)[id := result.entry]
      ensures !result.Stored? ==> entries == old(entries)
      ensures result.Rejected? <==>
        || id.ns == "" || id.key == "" || |id.key| > 256 || '\0' in id.key
        || (payload.Some? && |payload.value| > 16384) || delay > cfg.maxDelay
      ensures result.TooManyKeys? ==> id !in old(entries) && |InNamespace(old(entries), id.ns)| >= 1000
      ensures result.Stored? ==>
        var e, asked := result.entry, if delay < 0 then now else now + delay;
        var floored := if id in fired then Max(asked, fired[id] + cfg.minInterval) else asked;
        if id !in old(entries) then
          && e.runAt == floored && e.enqueuedAt == now && e.enqueues == 1 && e.payload == payload
          && |InNamespace(old(entries), id.ns)| < 1000
        else
          var was := old(entries)[id];
          && e.runAt == Min(was.runAt, floored) && e.enqueuedAt == was.enqueuedAt
          && e.enqueues == was.enqueues + 1 && e.payload == if payload.Some? then payload else was.payload
    {
      if id.ns == "" || id.key == "" || |id.key| > MAX_KEY_LEN || '\0' in id.key {
        return Rejected;
      }
      if payload.Some? && |payload.value| > MAX_PAYLOAD_BYTES {
        return Rejected;
      }
      var delayed := if delay < 0 then 0 else delay;
      if delayed > cfg.maxDelay {
        return Rejected;
      }
      var want := now + delayed;
      if id in fired && want < fired[id] + cfg.minInterval {
        want := fired[id] + cfg.minInterval;
      }
      var e;
      if id in entries {
        e := entries[id];
        e := e.(enqueues := e.enqueues + 1);
        if payload.Some? {
          e := e.(payload := payload);
        }
        if want < e.runAt {
          e := e.(runAt := want);
        }
      } else {
        if |entries| >= MAX_PER_NAMESPACE {
          var n := NamespaceCount(id.ns);
          if n >= MAX_PER_NAMESPACE {
            return TooManyKeys;
          }
        } else {
          FewerThanAll(entries, id.ns);
        }
        e := Entry(want, now, 1, payload);
      }
      entries := entries[id := e];
      return Stored(e);
    }

    method NamespaceCount(ns: string) returns (n: nat)
      ensures n == |InNamespace(entries, ns)|
    {
      n := 0;
      var todo := entries.Keys;
      ghost var seen: set<Id> := {};
      while todo != {}
        invariant todo <= entries.Keys && seen == (set id | id in entries && id !in todo && id.ns == ns) && n == |seen|
        decreases todo
      {
        var id :| id in todo;
        todo := todo - {id};
        if id.ns == ns {
          n := n + 1;
          seen := seen + {id};
        }
      }
      assert seen == InNamespace(entries, ns);
    }

    /** Removes and stamps every due entry, and returns each of them once, by due time. */
    method Claim(now: Time) returns (claimed: seq<Item>)
      modifies this`entries, this`fired
      ensures Data() == Claimed(old(Data()), now)
      ensures SortedByRunAt(claimed) && ListsOnce(claimed, old(entries), Due(old(entries), now))
      ensures forall id :: id in entries <==> id in old(entries) && now < old(entries)[id].runAt
      ensures forall id :: id in entries ==> entries[id] == old(entries)[id]
      ensures forall id :: id in old(entries) && id !in entries ==>
        (id, old(entries)[id]) in claimed && id in fired && fired[id] == now
      ensures forall id :: id in old(fired) && !(id in old(entries) && id !in entries) ==>
        id in fired && fired[id] == old(fired)[id]
    {
      var due;
      claimed, due := CollectDue(now);
      var sorted := SortBy(claimed, RunAt);
      SortByRanks(claimed, RunAt);
      SameItems(claimed, sorted, entries, due);
      claimed := sorted;
      StampFired(due, now);
    }

    method CollectDue(now: Time) returns (claimed: seq<Item>, due: set<Id>)
      ensures due == Due(entries, now) && ListsOnce(claimed, entries, due)
    {
      claimed, due := [], {};
      var todo := entries.Keys;
      while todo != {}
        invariant todo <= entries.Keys && due == Due(entries, now) - todo
        invariant ListsOnce(claimed, entries, due)
        decreases todo
      {
        var id :| id in todo;
        todo := todo - {id};
        if entries[id].runAt <= now {
          claimed := claimed + [(id, entries[id])];
          due := due + {id};
        }
      }
    }

    method StampFired(due: set<Id>, now: Time)
      requires due <= entries.Keys
      modifies this`entries, this`fired
      ensures entries == old(entries) - due
      ensures fired == map id | id in old(fired).Keys + due :: if id in due then now else old(fired)[id]
    {
      var todo := due;
      while todo != {}
        invariant todo <= due && entries == old(entries) - (due - todo)
        invariant fired.Keys == old(fired).Keys + (due - todo)
        invariant forall id :: id in fired ==> fired[id] == if id in due - todo then now else old(fired)[id]
        decreases todo
      {
        var id :| id in todo;
        todo := todo - {id};
        entries := entries - {id};
        fired := fired[id := now];
      }
    }

    /** When the soonest entry becomes due. */
    method NextDue() returns (next: Option<Time>)
      ensures IsNextDue(entries, next)
    {
      next := None;
      var todo := entries.Keys;
      while todo != {}
        invariant todo <= entries.Keys
        invariant next.None? <==> todo == entries.Keys
        invariant next.Some? ==> exists id :: id in entries && entries[id].runAt == next.value
        invariant forall id :: id in entries && id !in todo ==> next.Some? && next.value <= entries[id].runAt
        decreases todo
      {
        var id :| id in todo;
        todo := todo - {id};
        if next.None? || entries[id].runAt < next.value {
          next := Some(entries[id].runAt);
        }
      }
      assert entries == map[] <==> entries.Keys == {};
    }

    method Delete(id: Id)
      modifies this`entries
      ensures entries == old(entries) - {id}
    {
      entries := entries - {id};
    }

    /** Drops what belongs to namespaces that are gone; returns how many entries went. */
    method PruneNamespaces(live: set<string>) returns (dropped: nat)
      modifies this`entries, this`fired
      ensures Data() == QueueModel.Pruned(old(Data()), live)
      ensures |entries| + dropped == |old(entries)|
      ensures forall id :: id in entries <==> id in old(entries) && (live == {} || id.ns in live)
      ensures forall id :: id in fired <==> id in old(fired) && (live == {} || id.ns in live)
      ensures forall id :: id in entries ==> entries[id] == old(entries)[id]
      ensures forall id :: id in fired ==> fired[id] == old(fired)[id]
    {
      if live == {} {
        return 0;
      }
      var gone := set id | id in entries && id.ns !in live;
      var stale := set id | id in fired && id.ns !in live;
      assert entries.Keys == (entries.Keys - gone) + gone;
      entries := entries - gone;
      fired := fired - stale;
      dropped := |gone|;
      assert |entries.Keys| + |gone| == |old(entries).Keys|;
    }

    /** Fills the wake slot without blocking. */
    method SignalWake()
      modifies this`wake
      ensures wake
    {
      if !wake {
        wake := true;
      }
    }
  }

  lemma FewerThanAll(entries: map<Id, Entry>, ns: string)
    ensures |InNamespace(entries, ns)| <= |entries|
  {
    var some := InNamespace(entries, ns);
    assert entries.Keys == some + (entries.Keys - some);
    assert |entries| == |entries.Keys|;
  }
}
