/**
  The durable work queue and its dispatcher (internal/queue) as one state machine. A bbolt
  transaction is one atomic step; an enqueuer's commit and its signal are two steps, and the
  dispatcher's claim, next-due read, timer arming and select are separate steps, so a run is
  any interleaving of them. The process may die and start again at any step: the store is kept,
  the wake slot and whatever an enqueuer had yet to signal are not.
 */
module QueueModel {
  import opened Basics

  type Time = int  // nanoseconds

  const MAX_KEY_LEN := 256
  const MAX_PAYLOAD_BYTES := 16 * 1024
  const MAX_PER_NAMESPACE := 1000

  datatype Id = Id(ns: string, key: string)

  datatype Entry = Entry(runAt: Time, enqueuedAt: Time, enqueues: nat, payload: Option<string>)

  datatype Store = Store(entries: map<Id, Entry>, fired: map<Id, Time>)

  datatype Config = Config(minInterval: Time, maxDelay: Time, idle: Time)

  predicate Configured(cfg: Config) {
    cfg.minInterval > 0 && cfg.maxDelay > 0 && cfg.idle > 0
  }

  // ---------------------------------------------------------------- transactions

  function InNamespace(entries: map<Id, Entry>, ns: string): set<Id> {
    set id | id in entries && id.ns == ns
  }

  predicate Acceptable(cfg: Config, id: Id, delay: Time, payload: Option<string>) {
    && id.ns != "" && id.key != "" && |id.key| <= MAX_KEY_LEN && '\0' !in id.key
    && (payload.Some? ==> |payload.value| <= MAX_PAYLOAD_BYTES)
    && delay <= cfg.maxDelay
  }

  /** A new key needs room in its namespace. */
  predicate HasRoom(store: Store, id: Id) {
    id in store.entries || |InNamespace(store.entries, id.ns)| < MAX_PER_NAMESPACE
  }

  /** What the caller asked for: never before now. */
  function Want(delay: Time, now: Time): Time {
    now + Max(delay, 0)
  }

  /** The anti-hot-loop floor: not before MinInterval after the key's own last fire. */
  function Floored(cfg: Config, store: Store, id: Id, want: Time): Time {
    if id in store.fired then Max(want, store.fired[id] + cfg.minInterval) else want
  }

  function Upserted(cfg: Config, store: Store, id: Id, delay: Time, payload: Option<string>, now: Time): Entry {
    var at := Floored(cfg, store, id, Want(delay, now));
    if id !in store.entries then Entry(at, now, 1, payload)
    else
      var e := store.entries[id];
      Entry(Min(e.runAt, at), e.enqueuedAt, e.enqueues + 1, if payload.Some? then payload else e.payload)
  }

  function Due(entries: map<Id, Entry>, now: Time): set<Id> {
    set id | id in entries && entries[id].runAt <= now
  }

  function Claimed(store: Store, now: Time): Store {
    var due := Due(store.entries, now);
    Store(store.entries - due, map id | id in store.fired.Keys + due :: if id in due then now else store.fired[id])
  }

  /** Every namespace that is not live loses its entries and fire stamps; an empty set prunes nothing. */
  function Pruned(store: Store, live: set<string>): Store {
    if live == {} then store
    else
      Store(map id | id in store.entries && id.ns in live :: store.entries[id],
            map id | id in store.fired && id.ns in live :: store.fired[id])
  }

  ghost predicate IsNextDue(entries: map<Id, Entry>, next: Option<Time>) {
    && (next.None? <==> entries == map[])
    && (next.Some? ==>
          && (exists id :: id in entries && entries[id].runAt == next.value)
          && (forall id :: id in entries ==> next.value <= entries[id].runAt))
  }

  // ---------------------------------------------------------------- the machine

  datatype Loop =
    | Draining
    | Reading
    | Arming(next: Option<Time>)
    | Selecting(armedAt: Time, deadline: Time)
    | Stopped

  datatype State = State(store: Store, wake: bool, unsignalled: nat, loop: Loop)

  const INITIAL := State(Store(map[], map[]), false, 0, Draining)

  datatype Action =
    | Enqueue(id: Id, delay: Time, payload: Option<string>, now: Time)
    | Signal
    | Delete(id: Id)
    | Prune(live: set<string>)
    | Claim(now: Time)
    | ClaimFails
    | ReadNext(next: Option<Time>)
    | ArmTimer(now: Time)
    | TakeWake
    | TimerFires(now: Time)
    | Stop
    | Restart

  ghost predicate Enabled(s: State, cfg: Config, a: Action) {
    match a
    case Enqueue(id, delay, payload, _) => Acceptable(cfg, id, delay, payload) && HasRoom(s.store, id)
    case Signal => s.unsignalled > 0
    case Delete(_) => true
    case Prune(_) => true
    case Claim(_) => s.loop.Draining?
    case ClaimFails => s.loop.Draining?
    case ReadNext(next) => s.loop.Reading? && IsNextDue(s.store.entries, next)
    case ArmTimer(_) => s.loop.Arming?
    case TakeWake => s.loop.Selecting? && s.wake
    case TimerFires(now) => s.loop.Selecting? && s.loop.deadline <= now
    case Stop => s.loop.Selecting?
    case Restart => true
  }

  function Waits(cfg: Config, next: Option<Time>, now: Time): Time {
    Max(0, if next.Some? then Min(cfg.idle, next.value - now) else cfg.idle)
  }

  ghost function Step(s: State, cfg: Config, a: Action): State {
    if !Enabled(s, cfg, a) then s
    else
      match a
      case Enqueue(id, delay, payload, now) =>
        var entry := Upserted(cfg, s.store, id, delay, payload, now);
        s.(store := s.store.(entries := s.store.entries[id := entry]), unsignalled := s.unsignalled + 1)
      case Signal => s.(wake := true, unsignalled := s.unsignalled - 1)
      case Delete(id) => s.(store := s.store.(entries := s.store.entries - {id}))
      case Prune(live) => s.(store := Pruned(s.store, live))
      case Claim(now) => s.(store := Claimed(s.store, now), loop := Reading)
      case ClaimFails => s.(loop := Reading)
      case ReadNext(next) => s.(loop := Arming(next))
      case ArmTimer(now) => s.(loop := Selecting(now, now + Waits(cfg, s.loop.next, now)))
      case TakeWake => s.(wake := false, loop := Draining)
      case TimerFires(_) => s.(loop := Draining)
      case Stop => s.(loop := Stopped)
      case Restart => s.(wake := false, unsignalled := 0, loop := Draining)
  }

  ghost function Run(s: State, cfg: Config, actions: seq<Action>): State
    decreases |actions|
  {
    if actions == [] then s else Run(Step(s, cfg, actions[0]), cfg, actions[1..])
  }
}
