/** The lock half of the Store of internal/kv: each method does the call of Locks that it names. */
module LockTable {
  import opened Basics
  import opened Locks

  /** Refused names the current holder where there is one to report. */
  datatype TakeResult =
    | Granted(hold: Hold, displaced: Option<Hold>)
    | Refused(why: Refusal, holder: Option<Hold>)

  /** The (namespace, key) pairs of the locks in `gone`. */
  ghost function Pairs(s: Table, gone: Hold -> bool): set<(string, string)> {
    set ns, key | ns in s && key in s[ns] && gone(s[ns][key]) :: (ns, key)
  }

  class LockStore {
    const maxNamespaces: nat
    var locks: Table

    constructor (maxNamespaces: nat)
      ensures this.maxNamespaces == maxNamespaces && locks == After(maxNamespaces, [])
    {
      this.maxNamespaces := maxNamespaces;
      locks := map[];
    }

    /** AcquireLock, AcquireLockPinned and StealLock, by the steal and pin flags. */
    method TakeLock(ns: string, key: string, run: string, ttl: Time, steal: bool, pin: bool, now: Time)
      returns (result: TakeResult)
      modifies this
      ensures var c := Take(ns, key, run, ttl, steal, pin, now);
        && locks == Step(old(locks), maxNamespaces, c)
        && (result.Refused? <==> TakeRefusal(old(locks), maxNamespaces, c).Some?)
        && (result.Refused? ==> locks == old(locks) && Some(result.why) == TakeRefusal(old(locks), maxNamespaces, c))
      ensures result.Refused? && result.why in {Held, HeldExpired, HeldPinned} ==>
        result.holder == HoldAt(old(locks), ns, key)
      ensures result.Granted? ==> HoldAt(locks, ns, key) == Some(result.hold)
      ensures result.Granted? ==>
        result.displaced == if HeldBy(old(locks), ns, key, run) then None else HoldAt(old(locks), ns, key)
      ensures result.Granted? <==>
        && ValidName(ns) && run != ""
        && if ns !in old(locks) then |old(locks)| < maxNamespaces
           else
             || key !in old(locks)[ns] || old(locks)[ns][key].run == run
             || (steal && (!old(locks)[ns][key].pinned || old(locks)[ns][key].expiresAt <= now))
      ensures result.Refused? && result.why in {Held, HeldExpired, HeldPinned} ==>
        && ns in old(locks) && key in old(locks)[ns] && old(locks)[ns][key].run != run
        && (result.why == HeldPinned <==> steal)
        && (result.why == HeldExpired <==> !steal && old(locks)[ns][key].expiresAt <= now)
      ensures result.Refused? && result.why !in {Held, HeldExpired, HeldPinned} ==>
        && (result.why == BadNamespace <==> !ValidName(ns))
        && (result.why == NoIdentity <==> ValidName(ns) && run == "")
        && (result.why == TooManyNamespaces <==> ValidName(ns) && run != "")
      ensures result.Granted? ==>
        var keys := if ns in old(locks) then old(locks)[ns] else map[];
        var own := key in keys && keys[key].run == run;
        && locks == old(locks)[ns := keys[key := result.hold]]
        && result.hold.run == run
        && result.hold.expiresAt == (if ttl > 0 then now + ttl else now + 900_000_000_000)
        && result.hold.acquiredAt == (if own then keys[key].acquiredAt else now)
        && result.hold.pinned == (pin || (own && keys[key].pinned))
    {
      if !ValidName(ns) {
        return Refused(BadNamespace, None);
      }
      if run == "" {
        return Refused(NoIdentity, None);
      }
      var life := if ttl <= 0 then DEFAULT_LOCK_TTL else ttl;
      var displaced := None;
      var m := map[];
      if ns in locks {
        m := locks[ns];
        if key in m && m[key].run != run {
          var prev := m[key];
          if !steal && Expired(prev, now) {
            return Refused(HeldExpired, Some(prev));
          }
          if !steal {
            return Refused(Held, Some(prev));
          }
          if prev.pinned && !Expired(prev, now) {
            return Refused(HeldPinned, Some(prev));
          }
          displaced := Some(prev);
        }
      } else if |locks| >= maxNamespaces {
        return Refused(TooManyNamespaces, None);
      }
      var e := Hold(run, now, now + life, pin);
      if key in m && m[key].run == run {
        e := e.(acquiredAt := m[key].acquiredAt, pinned := pin || m[key].pinned);
      }
      locks := locks[ns := m[key := e]];
      return Granted(e, displaced);
    }

    method PinLock(ns: string, key: string, run: string, pinned: bool) returns (refusal: Option<Refusal>)
      modifies this
      ensures locks == Step(old(locks), maxNamespaces, SetPin(ns, key, run, pinned))
      ensures refusal == OwnerRefusal(old(locks), ns, key, run)
      ensures refusal.Some? ==> locks == old(locks)
      ensures refusal == Some(BadNamespace) <==> !ValidName(ns)
      ensures refusal == Some(NotHeld) <==> ValidName(ns) && !(ns in old(locks) && key in old(locks)[ns])
      ensures refusal == Some(Held) <==>
        ValidName(ns) && ns in old(locks) && key in old(locks)[ns] && old(locks)[ns][key].run != run
      ensures refusal.None? <==> refusal !in {Some(BadNamespace), Some(NotHeld), Some(Held)}
      ensures refusal.None? ==>
        locks == old(locks)[ns := old(locks)[ns][key := old(locks)[ns][key].(pinned := pinned)]]
    {
      if !ValidName(ns) {
        return Some(BadNamespace);
      }
      if ns !in locks || key !in locks[ns] {
        return Some(NotHeld);
      }
      var prev := locks[ns][key];
      if prev.run != run {
        return Some(Held);
      }
      locks := locks[ns := locks[ns][key := prev.(pinned := pinned)]];
      return None;
    }

    method ReleaseLock(ns: string, key: string, run: string) returns (refusal: Option<Refusal>)
      modifies this
      ensures locks == Step(old(locks), maxNamespaces, Release(ns, key, run))
      ensures refusal == OwnerRefusal(old(locks), ns, key, run)
      ensures refusal.Some? ==> locks == old(locks)
      ensures refusal == Some(BadNamespace) <==> !ValidName(ns)
      ensures refusal == Some(NotHeld) <==> ValidName(ns) && !(ns in old(locks) && key in old(locks)[ns])
      ensures refusal == Some(Held) <==>
        ValidName(ns) && ns in old(locks) && key in old(locks)[ns] && old(locks)[ns][key].run != run
      ensures refusal.None? <==> refusal !in {Some(BadNamespace), Some(NotHeld), Some(Held)}
      ensures refusal.None? ==> locks == old(locks)[ns := old(locks)[ns] - {key}]
    {
      if !ValidName(ns) {
        return Some(BadNamespace);
      }
      if ns !in locks || key !in locks[ns] {
        return Some(NotHeld);
      }
      if locks[ns][key].run != run {
        return Some(Held);
      }
      locks := locks[ns := locks[ns] - {key}];
      return None;
    }

    method ReapExpiredLock(ns: string, key: string, holder: string, now: Time) returns (reaped: bool)
      modifies this
      ensures var c := ReapOne(ns, key, holder, now);
        locks == Step(old(locks), maxNamespaces, c) && reaped == Reapable(old(locks), c)
      ensures !reaped ==> locks == old(locks)
      ensures reaped <==>
        && ns in old(locks) && key in old(locks)[ns]
        && old(locks)[ns][key].run == holder && old(locks)[ns][key].expiresAt <= now
      ensures reaped ==>
        if old(locks)[ns].Keys == {key} then locks == old(locks) - {ns}
        else locks == old(locks)[ns := old(locks)[ns] - {key}]
    {
      if ns !in locks || key !in locks[ns] || locks[ns][key].run != holder || !Expired(locks[ns][key], now) {
        return false;
      }
      var m := locks[ns] - {key};
      LastLock(locks[ns], key);
      if |m| == 0 {
        locks := locks - {ns};
      } else {
        locks := locks[ns := m];
      }
      return true;
    }

    /** Frees every lock of a finished run, and counts them. */
    method ReleaseRunLocks(run: string) returns (freed: nat)
      modifies this
      ensures locks == Step(old(locks), maxNamespaces, ReleaseRun(run))
      ensures freed == if run == "" then 0 else |Pairs(old(locks), OwnedBy(run))|
      ensures run == "" ==> locks == old(locks)
      ensures run != "" ==>
        forall n, k ::
          var h := HoldAt(old(locks), n, k);
          HoldAt(locks, n, k) == if h.Some? && h.value.run == run then None else h
      ensures run != "" ==> forall n :: n in locks ==> locks[n] != map[]
    {
      if run == "" {
        return 0;
      }
      forall n, k {
        DroppedHolds(locks, OwnedBy(run), n, k);
      }
      locks, freed := SweepTable(locks, OwnedBy(run));
    }

    /** The sweeper's half: expired locks whose run is known to be gone. */
    method ReapExpiredLocks(live: Option<set<string>>, now: Time)
      modifies this
      ensures locks == Step(old(locks), maxNamespaces, ReapAll(live, now))
      ensures live.None? ==> locks == old(locks)
      ensures live.Some? ==>
        forall n, k ::
          var h := HoldAt(old(locks), n, k);
          HoldAt(locks, n, k) == if h.Some? && h.value.expiresAt <= now && h.value.run !in live.value then None else h
      ensures live.Some? ==> forall n :: n in locks ==> locks[n] != map[]
    {
      if live.None? {
        return;
      }
      forall n, k {
        DroppedHolds(locks, ExpiredAndDead(live.value, now), n, k);
      }
      var rest, _ := SweepTable(locks, ExpiredAndDead(live.value, now));
      locks := rest;
    }
  }

  /** The outer loop of both sweeps: drop holds namespace by namespace, and namespaces left empty. */
  method SweepTable(s: Table, gone: Hold -> bool) returns (t: Table, dropped: nat)
    ensures t == DropWhere(s, gone) && dropped == |Pairs(s, gone)|
  {
    t, dropped := s, 0;
    var todo := s.Keys;
    ghost var seen: set<string> := {};
    ghost var pairs: set<(string, string)> := {};
    Untouched(s, gone);
    while todo != {}
      invariant seen + todo == s.Keys && seen !! todo
      invariant t == DropWithin(s, seen, gone)
      invariant pairs == PairsWithin(s, seen, gone) && dropped == |pairs|
      decreases todo
    {
      var ns :| ns in todo;
      DropNext(s, seen, gone, ns);
      PairsNext(s, seen, gone, ns);
      var m, n := DropHolds(s[ns], gone);
      pairs := PairsWithin(s, seen + {ns}, gone);
      todo, seen := todo - {ns}, seen + {ns};
      t, dropped := if m == map[] then t - {ns} else t[ns := m], dropped + n;
    }
  }

  /** The inner loop of both sweeps, over the locks of one namespace. */
  method DropHolds(m: map<string, Hold>, gone: Hold -> bool) returns (rest: map<string, Hold>, dropped: nat)
    ensures rest == Remaining(m, gone) && dropped == |set key | key in m && gone(m[key])|
  {
    rest, dropped := m, 0;
    var todo := m.Keys;
    ghost var done: set<string> := {};
    while todo != {}
      invariant todo <= m.Keys && rest.Keys <= m.Keys
      invariant forall key :: key in m ==> (key in rest <==> key in todo || !gone(m[key]))
      invariant forall key :: key in rest ==> rest[key] == m[key]
      invariant done == (set key | key in m && key !in todo && gone(m[key])) && dropped == |done|
      decreases todo
    {
      var key :| key in todo;
      todo := todo - {key};
      if gone(m[key]) {
        rest := rest - {key};
        done := done + {key};
        dropped := dropped + 1;
      }
    }
    assert done == set key | key in m && gone(m[key]);
  }

  /** The table after the outer loop has visited the namespaces in `seen`. */
  ghost function DropWithin(s: Table, seen: set<string>, gone: Hold -> bool): Table {
    map ns | ns in s && (ns in seen ==> Remaining(s[ns], gone) != map[]) ::
      if ns in seen then Remaining(s[ns], gone) else s[ns]
  }

  ghost function PairsWithin(s: Table, seen: set<string>, gone: Hold -> bool): set<(string, string)> {
    set p | p in Pairs(s, gone) && p.0 in seen
  }

  lemma Untouched(s: Table, gone: Hold -> bool)
    ensures DropWithin(s, {}, gone) == s && DropWithin(s, s.Keys, gone) == DropWhere(s, gone)
    ensures PairsWithin(s, {}, gone) == {} && PairsWithin(s, s.Keys, gone) == Pairs(s, gone)
  {
  }

  lemma PairsNext(s: Table, seen: set<string>, gone: Hold -> bool, ns: string)
    requires ns in s && ns !in seen
    ensures |PairsWithin(s, seen + {ns}, gone)|
         == |PairsWithin(s, seen, gone)| + |set key | key in s[ns] && gone(s[ns][key])|
  {
    var keys := set key | key in s[ns] && gone(s[ns][key]);
    var here := set key | key in keys :: (ns, key);
    var before, after := PairsWithin(s, seen, gone), PairsWithin(s, seen + {ns}, gone);
    PairCount(keys, ns);
    forall p: (string, string) ensures p in after <==> p in before + here {
      assert p in here <==> p.0 == ns && p.1 in keys by {
        if p.0 == ns && p.1 in keys {
          assert p == (ns, p.1);
        }
      }
      assert p in Pairs(s, gone) <==> p.0 in s && p.1 in s[p.0] && gone(s[p.0][p.1]) by {
        if p.0 in s && p.1 in s[p.0] && gone(s[p.0][p.1]) {
          assert p == (p.0, p.1);
        }
      }
    }
    assert after == before + here;
    assert before !! here;
  }

  lemma DropNext(s: Table, seen: set<string>, gone: Hold -> bool, ns: string)
    requires ns in s && ns !in seen
    ensures var t, m := DropWithin(s, seen, gone), Remaining(s[ns], gone);
      DropWithin(s, seen + {ns}, gone) == if m == map[] then t - {ns} else t[ns := m]
  {
  }

  lemma PairCount(keys: set<string>, ns: string)
    ensures |set key | key in keys :: (ns, key)| == |keys|
  {
    if key :| key in keys {
      PairCount(keys - {key}, ns);
      assert (set k | k in keys :: (ns, k)) == (set k | k in keys - {key} :: (ns, k)) + {(ns, key)};
    }
  }

  lemma LastLock(m: map<string, Hold>, key: string)
    requires key in m
    ensures |m - {key}| == |m| - 1
  {
    assert (m - {key}).Keys == m.Keys - {key};
    assert |m - {key}| == |(m - {key}).Keys| && |m| == |m.Keys|;
  }
}
