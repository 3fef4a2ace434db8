/** The queue's scheduling law, its conservation of enqueues, and the dispatcher's wakeups. */
module QueueLaws {
  import opened Basics
  import opened QueueModel

  // ---------------------------------------------------------------- what the actions asked for

  /** One accepted enqueue: the time it asked for, when it came, and what it carried. */
  datatype Ask = Ask(at: Time, now: Time, payload: Option<string>)

  /** A key's history, told from the actions: `asks` since it became outstanding, `fires` since its last prune. */
  datatype History = History(asks: seq<Ask>, fires: seq<Time>, accepted: nat, fired: nat, dropped: nat)

  const NO_HISTORY := History([], [], 0, 0, 0)

  function Earliest(asks: seq<Ask>): Time
    requires asks != []
  {
    var at := asks[|asks| - 1].at;
    if |asks| == 1 then at else Min(Earliest(asks[..|asks| - 1]), at)
  }

  lemma {:induction false} EarliestIsLeast(asks: seq<Ask>)
    requires asks != []
    ensures exists ask :: ask in asks && ask.at == Earliest(asks)
    ensures forall ask :: ask in asks ==> Earliest(asks) <= ask.at
  {
    var rest, last := asks[..|asks| - 1], asks[|asks| - 1];
    assert asks == rest + [last];
    assert last in asks;
    if rest != [] {
      EarliestIsLeast(rest);
    }
  }

  /** The payload that was given last, if any was. */
  function Newest(asks: seq<Ask>): Option<string> {
    if asks == [] then None
    else if asks[|asks| - 1].payload.Some? then asks[|asks| - 1].payload
    else Newest(asks[..|asks| - 1])
  }

  /** When an outstanding key is to run: as early as anyone asked, but not within the interval of its last fire. */
  function RunsAt(cfg: Config, h: History): Time
    requires h.asks != []
  {
    if h.fires == [] then Earliest(h.asks)
    else Max(Earliest(h.asks), h.fires[|h.fires| - 1] + cfg.minInterval)
  }

  /** What an action that was taken means for a key. */
  function Told(cfg: Config, h: History, id: Id, a: Action): History {
    match a
    case Enqueue(x, delay, payload, now) =>
      var ask := Ask(if delay < 0 then now else now + delay, now, payload);
      if x == id then h.(asks := h.asks + [ask], accepted := h.accepted + 1) else h
    case Delete(x) =>
      if x == id then h.(asks := [], dropped := h.dropped + |h.asks|) else h
    case Prune(live) =>
      if live == {} || id.ns in live then h else h.(asks := [], fires := [], dropped := h.dropped + |h.asks|)
    case Claim(now) =>
      if h.asks == [] || now < RunsAt(cfg, h) then h
      else h.(asks := [], fires := h.fires + [now], fired := h.fired + |h.asks|)
    case _ => h
  }

  ghost function ToldFrom(cfg: Config, s: State, h: History, id: Id, actions: seq<Action>): History
    decreases |actions|
  {
    if actions == [] then h
    else
      var h' := if Enabled(s, cfg, actions[0]) then Told(cfg, h, id, actions[0]) else h;
      ToldFrom(cfg, Step(s, cfg, actions[0]), h', id, actions[1..])
  }

  ghost function HistoryOf(cfg: Config, actions: seq<Action>, id: Id): History {
    ToldFrom(cfg, INITIAL, NO_HISTORY, id, actions)
  }

  // ---------------------------------------------------------------- the store keeps to it

  /** Successive fires are at least the interval apart. */
  predicate Spaced(fires: seq<Time>, interval: Time) {
    forall i :: 0 <= i < |fires| - 1 ==> fires[i] + interval <= fires[i + 1]
  }

  predicate Lawful(s: State, cfg: Config, id: Id, h: History) {
    && (id in s.store.entries <==> h.asks != [])
    && (h.asks != [] ==>
          s.store.entries[id] == Entry(RunsAt(cfg, h), h.asks[0].now, |h.asks|, Newest(h.asks)))
    && (id in s.store.fired <==> h.fires != [])
    && (h.fires != [] ==> s.store.fired[id] == h.fires[|h.fires| - 1])
    && Spaced(h.fires, cfg.minInterval)
    && h.accepted == |h.asks| + h.fired + h.dropped
  }

  lemma MoreAsks(asks: seq<Ask>, ask: Ask)
    ensures Earliest(asks + [ask]) == if asks == [] then ask.at else Min(Earliest(asks), ask.at)
    ensures Newest(asks + [ask]) == if ask.payload.Some? then ask.payload else Newest(asks)
  {
    assert (asks + [ask])[..|asks|] == asks;
  }

  /** The upsert stores what the longer history tells. */
  lemma UpsertTells(s: State, cfg: Config, a: Action, h: History)
    requires a.Enqueue? && Lawful(s, cfg, a.id, h)
    ensures var h' := Told(cfg, h, a.id, a);
      Upserted(cfg, s.store, a.id, a.delay, a.payload, a.now)
      == Entry(RunsAt(cfg, h'), h'.asks[0].now, |h'.asks|, Newest(h'.asks))
  {
    var ask, h' := Ask(if a.delay < 0 then a.now else a.now + a.delay, a.now, a.payload), Told(cfg, h, a.id, a);
    MoreAsks(h.asks, ask);
    assert h'.asks == h.asks + [ask] && h'.fires == h.fires;
    assert h'.asks[0] == if h.asks == [] then ask else h.asks[0];
    var floored := Floored(cfg, s.store, a.id, ask.at);
    assert RunsAt(cfg, h') == if h.asks == [] then floored else Min(RunsAt(cfg, h), floored);
  }

  lemma EnqueueLawful(s: State, cfg: Config, a: Action, id: Id, h: History)
    requires Lawful(s, cfg, id, h) && a.Enqueue? && Enabled(s, cfg, a)
    ensures Lawful(Step(s, cfg, a), cfg, id, Told(cfg, h, id, a))
  {
    var s', h' := Step(s, cfg, a), Told(cfg, h, id, a);
    assert s'.store.fired == s.store.fired && h'.fires == h.fires;
    if a.id == id {
      UpsertTells(s, cfg, a, h);
    }
  }

  /** A claimed key had reached its floor, so its new fire is spaced from the last. */
  lemma ClaimLawful(s: State, cfg: Config, now: Time, id: Id, h: History)
    requires Lawful(s, cfg, id, h) && s.loop.Draining?
    ensures Lawful(Step(s, cfg, Claim(now)), cfg, id, Told(cfg, h, id, Claim(now)))
  {
  }

  lemma StepLawful(s: State, cfg: Config, a: Action, id: Id, h: History)
    requires Lawful(s, cfg, id, h) && Enabled(s, cfg, a)
    ensures Lawful(Step(s, cfg, a), cfg, id, Told(cfg, h, id, a))
  {
    if a.Enqueue? {
      EnqueueLawful(s, cfg, a, id, h);
    } else if a.Claim? {
      ClaimLawful(s, cfg, a.now, id, h);
    } else {
      var s', h' := Step(s, cfg, a), Told(cfg, h, id, a);
      assert id in s'.store.entries ==> id in s.store.entries && s'.store.entries[id] == s.store.entries[id];
      assert id in s'.store.fired ==> id in s.store.fired && s'.store.fired[id] == s.store.fired[id];
    }
  }

  lemma {:induction false} RunLawful(s: State, cfg: Config, actions: seq<Action>, id: Id, h: History)
    requires Lawful(s, cfg, id, h)
    ensures Lawful(Run(s, cfg, actions), cfg, id, ToldFrom(cfg, s, h, id, actions))
    decreases |actions|
  {
    if actions != [] {
      var a := actions[0];
      if Enabled(s, cfg, a) {
        StepLawful(s, cfg, a, id, h);
      }
      RunLawful(Step(s, cfg, a), cfg, actions[1..], id, if Enabled(s, cfg, a) then Told(cfg, h, id, a) else h);
    }
  }

  // ---------------------------------------------------------------- theorems

  /**
    The scheduling law, from the actions alone: a key is outstanding from an accepted enqueue until it
    is claimed, deleted or pruned, and runs at the earliest time any of its enqueues asked for, but
    never before MinInterval after its last fire. It tells who came first, how many came, and the
    newest payload.
   */
  lemma SchedulingLaw(cfg: Config, actions: seq<Action>, id: Id)
    ensures var s, h := Run(INITIAL, cfg, actions), HistoryOf(cfg, actions, id);
      && (id in s.store.entries <==> h.asks != [])
      && (h.asks != [] ==>
            var e := s.store.entries[id];
            && e.runAt == (if h.fires == [] then Earliest(h.asks)
                           else Max(Earliest(h.asks), h.fires[|h.fires| - 1] + cfg.minInterval))
            && e.enqueuedAt == h.asks[0].now && e.enqueues == |h.asks| && e.payload == Newest(h.asks))
  {
    RunLawful(INITIAL, cfg, actions, id, NO_HISTORY);
  }

  /** For any clock readings, two successive fires of an unpruned key are MinInterval apart. */
  lemma FiresSpaced(cfg: Config, actions: seq<Action>, id: Id, i: nat)
    ensures var fires := HistoryOf(cfg, actions, id).fires;
      i + 1 < |fires| ==> fires[i] + cfg.minInterval <= fires[i + 1]
  {
    RunLawful(INITIAL, cfg, actions, id, NO_HISTORY);
  }

  /** Every successful enqueue is counted once: in the outstanding entry, a fired or a dropped one. */
  lemma EnqueuesConserved(cfg: Config, actions: seq<Action>, id: Id)
    ensures var s, h := Run(INITIAL, cfg, actions), HistoryOf(cfg, actions, id);
      h.accepted == (if id in s.store.entries then s.store.entries[id].enqueues else 0) + h.fired + h.dropped
  {
    RunLawful(INITIAL, cfg, actions, id, NO_HISTORY);
  }

  // ---------------------------------------------------------------- the namespace cap

  ghost predicate Bounded(s: State) {
    forall ns :: |InNamespace(s.store.entries, ns)| <= MAX_PER_NAMESPACE
  }

  lemma FewerEntries(before: map<Id, Entry>, after: map<Id, Entry>, ns: string)
    requires after.Keys <= before.Keys
    ensures |InNamespace(after, ns)| <= |InNamespace(before, ns)|
  {
    var b, a := InNamespace(before, ns), InNamespace(after, ns);
    assert a <= b;
    assert b == a + (b - a);
  }

  lemma EnqueueBounded(s: State, cfg: Config, a: Action, ns: string)
    requires Bounded(s) && a.Enqueue? && Enabled(s, cfg, a)
    ensures |InNamespace(Step(s, cfg, a).store.entries, ns)| <= MAX_PER_NAMESPACE
  {
    var before, after := InNamespace(s.store.entries, ns), InNamespace(Step(s, cfg, a).store.entries, ns);
    assert after == if ns == a.id.ns then before + {a.id} else before;
  }

  lemma StepBounded(s: State, cfg: Config, a: Action)
    requires Bounded(s)
    ensures Bounded(Step(s, cfg, a))
  {
    forall ns ensures |InNamespace(Step(s, cfg, a).store.entries, ns)| <= MAX_PER_NAMESPACE {
      if a.Enqueue? && Enabled(s, cfg, a) {
        EnqueueBounded(s, cfg, a, ns);
      } else {
        FewerEntries(s.store.entries, Step(s, cfg, a).store.entries, ns);
      }
    }
  }

  lemma {:induction false} RunBounded(s: State, cfg: Config, actions: seq<Action>)
    requires Bounded(s)
    ensures Bounded(Run(s, cfg, actions))
    decreases |actions|
  {
    if actions != [] {
      StepBounded(s, cfg, actions[0]);
      RunBounded(Step(s, cfg, actions[0]), cfg, actions[1..]);
    }
  }

  lemma NamespaceBounded(cfg: Config, actions: seq<Action>, ns: string)
    ensures |InNamespace(Run(INITIAL, cfg, actions).store.entries, ns)| <= 1000
  {
    forall x ensures |InNamespace(INITIAL.store.entries, x)| <= MAX_PER_NAMESPACE {
      assert InNamespace(INITIAL.store.entries, x) == {};
    }
    RunBounded(INITIAL, cfg, actions);
  }

  // ---------------------------------------------------------------- wakeups

  /** Nothing outstanding is due before t. */
  predicate NothingBefore(entries: map<Id, Entry>, t: Time) {
    forall id :: id in entries ==> t <= entries[id].runAt
  }

  predicate Woken(s: State) {
    s.wake || s.unsignalled > 0
  }

  /** What the loop last read still bounds every entry, or a wakeup is on its way. */
  predicate Attentive(s: State) {
    match s.loop
    case Arming(next) =>
      Woken(s) || (if next.Some? then NothingBefore(s.store.entries, next.value) else s.store.entries == map[])
    case Selecting(armedAt, deadline) =>
      Woken(s) || deadline == armedAt || NothingBefore(s.store.entries, deadline)
    case _ => true
  }

  lemma StepAttentive(s: State, cfg: Config, a: Action)
    requires Attentive(s) && Configured(cfg)
    ensures Attentive(Step(s, cfg, a))
  {
  }

  lemma {:induction false} RunAttentive(s: State, cfg: Config, actions: seq<Action>)
    requires Attentive(s) && Configured(cfg)
    ensures Attentive(Run(s, cfg, actions))
    decreases |actions|
  {
    if actions != [] {
      StepAttentive(s, cfg, actions[0]);
      RunAttentive(Step(s, cfg, actions[0]), cfg, actions[1..]);
    }
  }

  /**
    No lost wakeup: whenever the loop is blocked in its select and some entry is due, a select
    case is ready (a full wake slot, or a timer whose deadline has passed), or an enqueuer has
    committed and will still signal. This holds for every interleaving.
   */
  lemma NoLostWakeup(cfg: Config, actions: seq<Action>, id: Id, clock: Time)
    requires Configured(cfg)
    ensures var s := Run(INITIAL, cfg, actions);
      s.loop.Selecting? && s.loop.armedAt <= clock && id in s.store.entries && s.store.entries[id].runAt <= clock ==>
        Enabled(s, cfg, TakeWake) || Enabled(s, cfg, TimerFires(clock)) || Enabled(s, cfg, Signal)
  {
    RunAttentive(INITIAL, cfg, actions);
  }

  /**
    What the timer is armed for: at once if what was read is due, and otherwise the sooner of that and
    the idle interval.
   */
  lemma ArmedFor(s: State, cfg: Config, now: Time)
    requires Configured(cfg) && s.loop.Arming?
    ensures var next, loop := s.loop.next, Step(s, cfg, ArmTimer(now)).loop;
      && loop.Selecting? && loop.armedAt == now && now <= loop.deadline <= now + cfg.idle
      && (loop.deadline == now <==> next.Some? && next.value <= now)
      && (next.Some? && now < next.value ==> loop.deadline <= next.value)
      && (loop.deadline == now + cfg.idle || (next.Some? && loop.deadline == Max(now, next.value)))
  {
  }

  // ---------------------------------------------------------------- storage keys

  /** entryKey: the namespace, a NUL byte, the key. */
  function EntryKey(id: Id): string {
    id.ns + ['\0'] + id.key
  }

  /** splitEntryKey: cut at the first NUL byte. */
  function SplitEntryKey(k: string): Option<Id> {
    if k == [] then None
    else if k[0] == '\0' then Some(Id("", k[1..]))
    else
      var rest := SplitEntryKey(k[1..]);
      if rest.None? then None else Some(Id([k[0]] + rest.value.ns, rest.value.key))
  }

  lemma {:induction false} SplitInverts(ns: string, key: string)
    requires '\0' !in ns
    ensures SplitEntryKey(ns + ['\0'] + key) == Some(Id(ns, key))
  {
    var k := ns + ['\0'] + key;
    if ns == [] {
      assert k[1..] == key;
    } else {
      assert k[0] == ns[0] && ns[0] in ns;
      assert k[1..] == ns[1..] + ['\0'] + key;
      SplitInverts(ns[1..], key);
      assert [ns[0]] + ns[1..] == ns;
    }
  }

  lemma {:induction false} SplitHasNoNul(k: string)
    ensures SplitEntryKey(k).Some? ==> '\0' !in SplitEntryKey(k).value.ns
  {
    if k != [] && k[0] != '\0' {
      SplitHasNoNul(k[1..]);
    }
  }

  /** The storage key decodes to the entry it was built from exactly when the namespace has no NUL. */
  lemma EntryKeyRoundTrip(id: Id)
    ensures SplitEntryKey(EntryKey(id)) == Some(id) <==> '\0' !in id.ns
  {
    if '\0' !in id.ns {
      SplitInverts(id.ns, id.key);
    } else {
      SplitHasNoNul(EntryKey(id));
    }
  }

  lemma ShorterNamespaceKeyHoldsNul(a: Id, b: Id)
    requires EntryKey(a) == EntryKey(b) && |a.ns| < |b.ns|
    ensures '\0' in a.key
  {
    assert EntryKey(b)[|b.ns|] == '\0';
    assert EntryKey(a)[|b.ns|] == a.key[|b.ns| - |a.ns| - 1];
  }

  /** Keys accepted by Enqueue never collide in the bucket, whatever their namespaces. */
  lemma EntryKeyInjective(a: Id, b: Id)
    requires EntryKey(a) == EntryKey(b)
    ensures a == b || '\0' in a.key || '\0' in b.key
  {
    if |a.ns| < |b.ns| {
      ShorterNamespaceKeyHoldsNul(a, b);
    } else if |b.ns| < |a.ns| {
      ShorterNamespaceKeyHoldsNul(b, a);
    } else {
      assert a.ns == EntryKey(a)[..|a.ns|] && b.ns == EntryKey(b)[..|b.ns|];
      assert a.key == EntryKey(a)[|a.ns| + 1..] && b.key == EntryKey(b)[|b.ns| + 1..];
    }
  }

  predicate HasPrefix(s: string, prefix: string) {
    |prefix| <= |s| && s[..|prefix|] == prefix
  }

  /** namespaceCount's prefix test selects exactly the namespace when neither name holds a NUL. */
  lemma PrefixSelectsNamespace(id: Id, ns: string)
    requires '\0' !in id.ns && '\0' !in ns
    ensures HasPrefix(EntryKey(id), ns + ['\0']) <==> id.ns == ns
  {
    var k := EntryKey(id);
    SplitInverts(id.ns, id.key);
    if HasPrefix(k, ns + ['\0']) {
      assert k == ns + ['\0'] + k[|ns| + 1..];
      SplitInverts(ns, k[|ns| + 1..]);
    }
    if id.ns == ns {
      assert k[..|ns| + 1] == ns + ['\0'];
    }
  }
}
