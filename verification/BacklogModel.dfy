/**
  The durable batch backlog of internal/backlog: what each call does to memory and to the files on
  disk, with every attempt to write a file succeeding or failing as the caller says.
 */
module BacklogModel {
  import opened Basics

  datatype Config = Config(maxDepth: nat, maxItemBytes: nat, maxQueues: nat, maxNamespaces: nat)

  predicate Configured(cfg: Config) {
    cfg.maxDepth > 0 && cfg.maxItemBytes > 0 && cfg.maxQueues > 0 && cfg.maxNamespaces > 0
  }

  /** A namespace's queues, in memory or in its file. Null is Go's nil map, and the file `null`. */
  datatype Shelf = Null | Shelf(queues: map<string, seq<string>>)

  type Shelves = map<string, Shelf>

  datatype Store = Store(mem: Shelves, disk: Shelves)

  datatype Error = BadNamespace | BadName | EmptyItem | ItemTooLarge | TooManyNamespaces | TooManyQueues | PersistFailed

  datatype Counts = Counts(queued: nat, duplicates: nat, dropped: nat, depth: nat)

  datatype PushOutcome = Queued(counts: Counts) | PushRefused(error: Error) | Panicked

  datatype TakeOutcome = Taken(items: seq<string>, left: nat) | TakeRefused(error: Error)

  function QueuesOf(shelves: Shelves, ns: string): map<string, seq<string>> {
    if ns in shelves && shelves[ns].Shelf? then shelves[ns].queues else map[]
  }

  function QueueOf(shelves: Shelves, ns: string, name: string): seq<string> {
    GetOr(QueuesOf(shelves, ns), name, [])
  }

  /** Rewrites one namespace's file from memory. */
  function Persisted(d: Store, ns: string): Store {
    d.(disk := d.disk[ns := if ns in d.mem then d.mem[ns] else Null])
  }

  function WithQueue(d: Store, ns: string, name: string, q: seq<string>): Store {
    d.(mem := d.mem[ns := Shelf(QueuesOf(d.mem, ns)[name := q])])
  }

  // ---------------------------------------------------------------- push

  /** The queue after pushing items one by one, skipping those present and those beyond the depth. */
  function Merged(q: seq<string>, items: seq<string>, maxDepth: nat): seq<string>
    decreases |items|
  {
    if items == [] then q
    else if items[0] in q || |q| >= maxDepth then Merged(q, items[1..], maxDepth)
    else Merged(q + [items[0]], items[1..], maxDepth)
  }

  function ItemError(items: seq<string>, maxBytes: nat): Option<Error> {
    if items == [] then None
    else if items[0] == "" then Some(EmptyItem)
    else if |items[0]| > maxBytes then Some(ItemTooLarge)
    else ItemError(items[1..], maxBytes)
  }

  function NameError(ns: string, name: string): Option<Error> {
    if !ValidName(ns) then Some(BadNamespace) else if !ValidName(name) then Some(BadName) else None
  }

  function RoomError(cfg: Config, d: Store, ns: string, name: string): Option<Error> {
    if ns !in d.mem && |d.mem| >= cfg.maxNamespaces then Some(TooManyNamespaces)
    else
      var queues := QueuesOf(d.mem, ns);
      if name !in queues && |queues| >= cfg.maxQueues then Some(TooManyQueues) else None
  }

  function PushError(cfg: Config, d: Store, ns: string, name: string, items: seq<string>): Option<Error> {
    if NameError(ns, name).Some? then NameError(ns, name)
    else if ItemError(items, cfg.maxItemBytes).Some? then ItemError(items, cfg.maxItemBytes)
    else RoomError(cfg, d, ns, name)
  }

  /** Writing into the nil map of a namespace whose file was `null` at startup. */
  predicate Panics(cfg: Config, d: Store, ns: string, name: string, items: seq<string>) {
    PushError(cfg, d, ns, name, items).None? && ns in d.mem && d.mem[ns].Null?
  }

  predicate PushSucceeds(cfg: Config, d: Store, ns: string, name: string, items: seq<string>, written: bool) {
    written && PushError(cfg, d, ns, name, items).None? && !Panics(cfg, d, ns, name, items)
  }

  function AfterPush(cfg: Config, d: Store, ns: string, name: string, items: seq<string>, written: bool): Store {
    if !PushSucceeds(cfg, d, ns, name, items, written) then d
    else Persisted(WithQueue(d, ns, name, Merged(QueueOf(d.mem, ns, name), items, cfg.maxDepth)), ns)
  }

  // ---------------------------------------------------------------- take

  /** How many items a take may remove. */
  function TakeSize(d: Store, ns: string, name: string, count: int): nat {
    if NameError(ns, name).Some? || count <= 0 then 0 else Min(count, |QueueOf(d.mem, ns, name)|)
  }

  predicate TakeSucceeds(d: Store, ns: string, name: string, count: int, written: bool) {
    TakeSize(d, ns, name, count) > 0 && written
  }

  /** Memory without an empty queue, and without the namespace if that was its last. */
  function Tidied(d: Store, ns: string, name: string): Store {
    var queues := QueuesOf(d.mem, ns) - {name};
    d.(mem := if queues == map[] then d.mem - {ns} else d.mem[ns := Shelf(queues)])
  }

  function AfterTake(d: Store, ns: string, name: string, count: int, written: bool, tidied: bool): Store {
    if !TakeSucceeds(d, ns, name, count, written) then d
    else
      var rest := QueueOf(d.mem, ns, name)[TakeSize(d, ns, name, count)..];
      var kept := Persisted(WithQueue(d, ns, name, rest), ns);
      if rest != [] then kept
      else if tidied then Persisted(Tidied(kept, ns, name), ns)
      else Tidied(kept, ns, name)
  }

  /** A restart: memory is what the files say. */
  function Reloaded(d: Store): Store {
    d.(mem := d.disk)
  }

  // ---------------------------------------------------------------- histories

  /**
    `crashes`: the process dies before the call returns and is started again. With the other flags
    this is a crash before the first rename, after it, or after the tidying one.
   */
  datatype Call =
    | Push(ns: string, name: string, items: seq<string>, written: bool, crashes: bool)
    | Take(ns: string, name: string, count: int, written: bool, tidied: bool, crashes: bool)
    | Restart

  /** What the call itself does, before any crash. */
  function Done(cfg: Config, d: Store, c: Call): Store {
    match c
    case Push(ns, name, items, written, _) => AfterPush(cfg, d, ns, name, items, written)
    case Take(ns, name, count, written, tidied, _) => AfterTake(d, ns, name, count, written, tidied)
    case Restart => d
  }

  predicate Restarts(c: Call) {
    c.Restart? || c.crashes
  }

  function Step(cfg: Config, d: Store, c: Call): Store {
    if Restarts(c) then Reloaded(Done(cfg, d, c)) else Done(cfg, d, c)
  }

  const EMPTY := Store(map[], map[])

  function After(cfg: Config, calls: seq<Call>): Store {
    if calls == [] then EMPTY else Step(cfg, After(cfg, calls[..|calls| - 1]), calls[|calls| - 1])
  }

  /** The items a call added to a queue: those a successful push found absent and had room for. */
  function AcceptedBy(cfg: Config, d: Store, c: Call, ns: string, name: string): seq<string> {
    if c.Push? && c.ns == ns && c.name == name && PushSucceeds(cfg, d, ns, name, c.items, c.written) then
      var q := QueueOf(d.mem, ns, name);
      var merged := Merged(q, c.items, cfg.maxDepth);
      if |q| <= |merged| then merged[|q|..] else []
    else []
  }

  /** The items a call removed from the head of a queue. */
  function RemovedBy(d: Store, c: Call, ns: string, name: string): seq<string> {
    if c.Take? && c.ns == ns && c.name == name && TakeSucceeds(d, ns, name, c.count, c.written) then
      QueueOf(d.mem, ns, name)[..TakeSize(d, ns, name, c.count)]
    else []
  }

  /** Those it handed to its caller: all of them, unless the process died first. */
  function TakenBy(d: Store, c: Call, ns: string, name: string): seq<string> {
    if Restarts(c) then [] else RemovedBy(d, c, ns, name)
  }

  function LostBy(d: Store, c: Call, ns: string, name: string): seq<string> {
    if Restarts(c) then RemovedBy(d, c, ns, name) else []
  }

  function Accepted(cfg: Config, calls: seq<Call>, ns: string, name: string): seq<string> {
    if calls == [] then []
    else
      var front := calls[..|calls| - 1];
      Accepted(cfg, front, ns, name) + AcceptedBy(cfg, After(cfg, front), calls[|calls| - 1], ns, name)
  }

  function RemovedAll(cfg: Config, calls: seq<Call>, ns: string, name: string): seq<string> {
    if calls == [] then []
    else
      var front := calls[..|calls| - 1];
      RemovedAll(cfg, front, ns, name) + RemovedBy(After(cfg, front), calls[|calls| - 1], ns, name)
  }

  function TakenAll(cfg: Config, calls: seq<Call>, ns: string, name: string): seq<string> {
    if calls == [] then []
    else
      var front := calls[..|calls| - 1];
      TakenAll(cfg, front, ns, name) + TakenBy(After(cfg, front), calls[|calls| - 1], ns, name)
  }

  function LostAll(cfg: Config, calls: seq<Call>, ns: string, name: string): seq<string> {
    if calls == [] then []
    else
      var front := calls[..|calls| - 1];
      LostAll(cfg, front, ns, name) + LostBy(After(cfg, front), calls[|calls| - 1], ns, name)
  }
}
