/**
  The fleet load of internal/cli/loadapply.go: whatever is read from the tree is checked, faulty
  entities are dropped as their errors are collected, and then the whole tree is applied or none
  of it. GateFleet carries these loads along every run of the reload gate.
 */
module Fleet {
  import opened Basics

  datatype Hook = Hook(group: string, interval: int)

  datatype Manager = Manager(group: string, spawnTargets: seq<string>)

  datatype LoadError =
    | Unreadable(what: string)
    | Clash(id: string)
    | UnknownGroup(id: string)
    | BadTarget(id: string, target: string)

  /** What was read: entities, the errors of reading, and the group limits unless their file is broken. */
  datatype Tree = Tree(
    hooks: map<string, Hook>, managers: map<string, Manager>, errors: seq<LoadError>, groups: Option<map<string, int>>)

  /** What the runner serves, in the five stores that a load writes one after another. */
  datatype Serving = Serving(
    groups: map<string, int>,
    schedules: map<string, int>,
    hooks: map<string, Hook>,
    managers: map<string, Manager>,
    supervised: map<string, Manager>)

  predicate Declared(groups: map<string, int>, group: string) {
    group == "" || group in groups
  }

  predicate SpawnsDeclared(m: Manager, hooks: map<string, Hook>) {
    forall x :: x in m.spawnTargets ==> x in hooks
  }

  /** A tree without a single fault, said without reference to the order of the checks. */
  predicate Clean(t: Tree) {
    && t.errors == [] && t.groups.Some?
    && t.hooks.Keys !! t.managers.Keys
    && (forall id :: id in t.hooks ==> Declared(t.groups.value, t.hooks[id].group))
    && (forall id :: id in t.managers ==> Declared(t.groups.value, t.managers[id].group))
    && (forall id :: id in t.managers ==> SpawnsDeclared(t.managers[id], t.hooks))
  }

  /** The whole tree: every entity that was read, and a schedule for each hook that has an interval. */
  function Whole(t: Tree): Serving
    requires t.groups.Some?
  {
    var schedules := map id | id in t.hooks && t.hooks[id].interval > 0 :: t.hooks[id].interval;
    Serving(t.groups.value, schedules, t.hooks, t.managers, t.managers)
  }

  /** One load: the whole tree if it is clean, and otherwise what was served before. */
  function AfterLoad(serving: Serving, t: Tree): Serving {
    if Clean(t) then Whole(t) else serving
  }

  class Runner {
    var serving: Serving

    constructor ()
      ensures serving == NOTHING
    {
      serving := NOTHING;
    }

    /** Applies the tree exactly when it is clean, and then all of it; otherwise nothing changes. */
    method LoadAndApply(t: Tree) returns (errors: seq<LoadError>)
      modifies this
      ensures errors == [] <==> Clean(t)
      ensures serving == AfterLoad(old(serving), t)
      ensures errors == [] <==>
        && t.errors == [] && t.groups.Some?
        && (forall id :: id in t.hooks ==> id !in t.managers)
        && (forall id :: id in t.hooks && t.hooks[id].group != "" ==> t.hooks[id].group in t.groups.value)
        && (forall id :: id in t.managers && t.managers[id].group != "" ==> t.managers[id].group in t.groups.value)
        && (forall id, x :: id in t.managers && x in t.managers[id].spawnTargets ==> x in t.hooks)
      ensures errors != [] ==> serving == old(serving)
      ensures errors == [] ==>
        && serving.groups == t.groups.value && serving.hooks == t.hooks
        && serving.managers == serving.supervised == t.managers
        && (forall id :: id in serving.schedules <==> id in t.hooks && t.hooks[id].interval > 0)
        && (forall id :: id in serving.schedules ==> serving.schedules[id] == t.hooks[id].interval)
    {
      var groups, hooks, managers;
      groups, hooks, managers, errors := CheckTree(t);
      if |errors| > 0 {
        return;
      }
      var schedules := SchedulesOf(hooks);
      serving := serving.(groups := groups);
      serving := serving.(schedules := schedules);
      serving := serving.(hooks := hooks);
      serving := serving.(managers := managers);
      serving := serving.(supervised := managers);
    }
  }

  /** The checks, in order, each dropping what it faults; without a fault everything is left. */
  method CheckTree(t: Tree)
    returns (groups: map<string, int>, hooks: map<string, Hook>, managers: map<string, Manager>, errors: seq<LoadError>)
    ensures errors == [] <==> Clean(t)
    ensures errors == [] ==> groups == t.groups.value && hooks == t.hooks && managers == t.managers
  {
    managers, errors := DropClashes(t.hooks, t.managers, t.errors);
    groups := map[];
    if t.groups.Some? {
      groups := t.groups.value;
    } else {
      errors := errors + [Unreadable("concurrency.json")];
    }
    var hookRefs := map id | id in t.hooks :: t.hooks[id].group;
    assert Clean(t) ==> forall id :: id in hookRefs ==> Declared(groups, t.hooks[id].group);
    hooks, errors := DropUnknownGroups(t.hooks, hookRefs, groups, errors);
    var managerRefs := map id | id in managers :: managers[id].group;
    assert errors == [] ==> forall id :: id in t.hooks ==> hookRefs[id] == t.hooks[id].group;
    managers, errors := DropUnknownGroups(managers, managerRefs, groups, errors);
    assert errors == [] ==> forall id :: id in t.managers ==> managerRefs[id] == t.managers[id].group;
    managers, errors := DropBadSpawners(hooks, managers, errors);
  }

  method DropClashes(hooks: map<string, Hook>, managers: map<string, Manager>, before: seq<LoadError>)
    returns (kept: map<string, Manager>, errors: seq<LoadError>)
    ensures errors == [] <==> before == [] && hooks.Keys !! managers.Keys
    ensures errors == [] ==> kept == managers
  {
    kept, errors := managers, before;
    var todo := managers.Keys;
    while todo != {}
      invariant todo <= managers.Keys
      invariant errors == [] <==> before == [] && forall id :: id in managers && id !in todo ==> id !in hooks
      invariant errors == [] ==> kept == managers
      decreases todo
    {
      var id :| id in todo;
      todo := todo - {id};
      if id in hooks {
        errors := errors + [Clash(id)];
        kept := kept - {id};
      }
    }
  }

  /** CheckRefs, and the deletion of the entities it names. */
  method DropUnknownGroups<E>(
    entities: map<string, E>, refs: map<string, string>, groups: map<string, int>, before: seq<LoadError>)
    returns (kept: map<string, E>, errors: seq<LoadError>)
    ensures errors == [] <==> before == [] && forall id :: id in refs ==> Declared(groups, refs[id])
    ensures errors == [] ==> kept == entities
  {
    kept, errors := entities, before;
    var todo := refs.Keys;
    while todo != {}
      invariant todo <= refs.Keys
      invariant errors == [] <==> before == [] && forall id :: id in refs && id !in todo ==> Declared(groups, refs[id])
      invariant errors == [] ==> kept == entities
      decreases todo
    {
      var id :| id in todo;
      todo := todo - {id};
      if refs[id] != "" && refs[id] !in groups {
        errors := errors + [UnknownGroup(id)];
        kept := kept - {id};
      }
    }
  }

  method DropBadSpawners(hooks: map<string, Hook>, managers: map<string, Manager>, before: seq<LoadError>)
    returns (kept: map<string, Manager>, errors: seq<LoadError>)
    ensures errors == [] <==> before == [] && forall id :: id in managers ==> SpawnsDeclared(managers[id], hooks)
    ensures errors == [] ==> kept == managers
  {
    kept, errors := managers, before;
    var todo := managers.Keys;
    while todo != {}
      invariant todo <= managers.Keys
      invariant errors == [] <==>
        before == [] && forall id :: id in managers && id !in todo ==> SpawnsDeclared(managers[id], hooks)
      invariant errors == [] ==> kept == managers
      decreases todo
    {
      var id :| id in todo;
      todo := todo - {id};
      var bad := BadTargets(id, managers[id], hooks);
      if |bad| > 0 {
        errors := errors + bad;
        kept := kept - {id};
      }
    }
  }

  method BadTargets(id: string, m: Manager, hooks: map<string, Hook>) returns (errors: seq<LoadError>)
    ensures errors == [] <==> SpawnsDeclared(m, hooks)
  {
    errors := [];
    var i := 0;
    while i < |m.spawnTargets|
      invariant 0 <= i <= |m.spawnTargets|
      invariant errors == [] <==> forall k :: 0 <= k < i ==> m.spawnTargets[k] in hooks
    {
      if m.spawnTargets[i] !in hooks {
        errors := errors + [BadTarget(id, m.spawnTargets[i])];
      }
      i := i + 1;
    }
  }

  method SchedulesOf(hooks: map<string, Hook>) returns (schedules: map<string, int>)
    ensures schedules == map id | id in hooks && hooks[id].interval > 0 :: hooks[id].interval
  {
    schedules := map[];
    var todo := hooks.Keys;
    while todo != {}
      invariant todo <= hooks.Keys
      invariant schedules == map id | id in hooks && id !in todo && hooks[id].interval > 0 :: hooks[id].interval
      decreases todo
    {
      var id :| id in todo;
      todo := todo - {id};
      if hooks[id].interval > 0 {
        schedules := schedules[id := hooks[id].interval];
      }
    }
  }

  // ---------------------------------------------------------------- what is served

  const NOTHING := Serving(map[], map[], map[], map[], map[])

  /** Nothing dangling: groups that are named exist, spawn targets are hooks, ids are unambiguous. */
  ghost predicate Coherent(s: Serving) {
    && s.hooks.Keys !! s.managers.Keys && s.supervised == s.managers
    && (forall id :: id in s.hooks ==> Declared(s.groups, s.hooks[id].group))
    && (forall id :: id in s.managers ==> Declared(s.groups, s.managers[id].group))
    && (forall id :: id in s.managers ==> SpawnsDeclared(s.managers[id], s.hooks))
    && (forall id :: id in s.schedules <==> id in s.hooks && s.hooks[id].interval > 0)
    && (forall id :: id in s.schedules ==> s.schedules[id] == s.hooks[id].interval)
  }

  lemma CleanIsCoherent(t: Tree)
    requires Clean(t)
    ensures Coherent(Whole(t))
  {
  }

  /** And only such a tree is applied: one that is read without error is clean exactly if all of it would cohere. */
  lemma CleanExactly(t: Tree)
    ensures Clean(t) <==> t.errors == [] && t.groups.Some? && Coherent(Whole(t))
  {
  }

  // ---------------------------------------------------------------- the stores one by one

  /** The stores, in the order in which a load writes them. */
  datatype Store = Groups | Schedules | Hooks | Managers | Supervised

  function Write(s: Serving, from: Serving, store: Store): Serving {
    match store
    case Groups => s.(groups := from.groups)
    case Schedules => s.(schedules := from.schedules)
    case Hooks => s.(hooks := from.hooks)
    case Managers => s.(managers := from.managers)
    case Supervised => s.(supervised := from.supervised)
  }

  predicate SameIn(a: Serving, b: Serving, store: Store) {
    match store
    case Groups => a.groups == b.groups
    case Schedules => a.schedules == b.schedules
    case Hooks => a.hooks == b.hooks
    case Managers => a.managers == b.managers
    case Supervised => a.supervised == b.supervised
  }

  lemma SameInBoth(a: Serving, b: Serving, store: Store)
    requires SameIn(a, b, store)
    ensures SameIn(b, a, store)
  {
    match store {
      case Groups =>
      case Schedules =>
      case Hooks =>
      case Managers =>
      case Supervised =>
    }
  }

  lemma SameEverywhere(a: Serving, b: Serving)
    requires forall store :: SameIn(a, b, store)
    ensures a == b
  {
    assert SameIn(a, b, Groups) && SameIn(a, b, Schedules) && SameIn(a, b, Hooks);
    assert SameIn(a, b, Managers) && SameIn(a, b, Supervised);
  }
}
