/**
  The run-owned locks of internal/kv/lock.go: what each call does to the table, and what that
  means for a hold over a whole history of calls. Every clock reading is a parameter; nothing is
  assumed about successive readings.
 */
module Locks {
  import opened Basics

  type Time = int  // nanoseconds

  const DEFAULT_LOCK_TTL: Time := 15 * 60 * 1_000_000_000

  datatype Hold = Hold(run: string, acquiredAt: Time, expiresAt: Time, pinned: bool)

  type Table = map<string, map<string, Hold>>

  datatype Refusal = BadNamespace | NoIdentity | Held | HeldExpired | HeldPinned | NotHeld | TooManyNamespaces

  datatype Call =
    | Take(ns: string, key: string, run: string, ttl: Time, steal: bool, pin: bool, now: Time)
    | SetPin(ns: string, key: string, run: string, pinned: bool)
    | Release(ns: string, key: string, run: string)
    | ReapOne(ns: string, key: string, run: string, now: Time)
    | ReleaseRun(run: string)
    | ReapAll(live: Option<set<string>>, now: Time)

  function HoldAt(s: Table, ns: string, key: string): Option<Hold> {
    if ns in s then Lookup(s[ns], key) else None
  }

  predicate HeldBy(s: Table, ns: string, key: string, run: string) {
    HoldAt(s, ns, key).Some? && HoldAt(s, ns, key).value.run == run
  }

  predicate Expired(h: Hold, now: Time) {
    h.expiresAt <= now
  }

  function LockTtl(ttl: Time): Time {
    if ttl <= 0 then DEFAULT_LOCK_TTL else ttl
  }

  // ---------------------------------------------------------------- calls

  function TakeRefusal(s: Table, max: nat, c: Call): Option<Refusal>
    requires c.Take?
  {
    if !ValidName(c.ns) then Some(BadNamespace)
    else if c.run == "" then Some(NoIdentity)
    else if c.ns !in s then if |s| >= max then Some(TooManyNamespaces) else None
    else if c.key !in s[c.ns] || s[c.ns][c.key].run == c.run then None
    else
      var h := s[c.ns][c.key];
      if !c.steal then Some(if Expired(h, c.now) then HeldExpired else Held)
      else if h.pinned && !Expired(h, c.now) then Some(HeldPinned)
      else None
  }

  function TakenHold(s: Table, c: Call): Hold
    requires c.Take?
  {
    var h := Hold(c.run, c.now, c.now + LockTtl(c.ttl), c.pin);
    var prev := HoldAt(s, c.ns, c.key);
    if prev.Some? && prev.value.run == c.run
    then h.(acquiredAt := prev.value.acquiredAt, pinned := c.pin || prev.value.pinned)
    else h
  }

  function PutHold(s: Table, ns: string, key: string, h: Hold): Table {
    s[ns := (if ns in s then s[ns] else map[])[key := h]]
  }

  /** Why the owner-only calls (pin, unpin, release) are refused. */
  function OwnerRefusal(s: Table, ns: string, key: string, run: string): Option<Refusal> {
    if !ValidName(ns) then Some(BadNamespace)
    else
      match HoldAt(s, ns, key)
      case None => Some(NotHeld)
      case Some(h) => if h.run != run then Some(Held) else None
  }

  /** The namespace stays, even when this was its last lock. */
  function Freed(s: Table, ns: string, key: string): Table
    requires ns in s
  {
    s[ns := s[ns] - {key}]
  }

  predicate Reapable(s: Table, c: Call)
    requires c.ReapOne?
  {
    HeldBy(s, c.ns, c.key, c.run) && Expired(s[c.ns][c.key], c.now)
  }

  function Remaining(m: map<string, Hold>, gone: Hold -> bool): map<string, Hold> {
    map key | key in m && !gone(m[key]) :: m[key]
  }

  /** Drops every hold in `gone`, and every namespace that is then empty. */
  function DropWhere(s: Table, gone: Hold -> bool): Table {
    map ns | ns in s && Remaining(s[ns], gone) != map[] :: Remaining(s[ns], gone)
  }

  function OwnedBy(run: string): Hold -> bool {
    (h: Hold) => h.run == run
  }

  function ExpiredAndDead(live: set<string>, now: Time): Hold -> bool {
    (h: Hold) => Expired(h, now) && h.run !in live
  }

  function Step(s: Table, max: nat, c: Call): Table {
    match c
    case Take(ns, key, _, _, _, _, _) =>
      if TakeRefusal(s, max, c).Some? then s else PutHold(s, ns, key, TakenHold(s, c))
    case SetPin(ns, key, run, pinned) =>
      if OwnerRefusal(s, ns, key, run).Some? then s else PutHold(s, ns, key, s[ns][key].(pinned := pinned))
    case Release(ns, key, run) =>
      if OwnerRefusal(s, ns, key, run).Some? then s else Freed(s, ns, key)
    case ReapOne(ns, key, _, _) =>
      if !Reapable(s, c) then s else if |s[ns]| == 1 then s - {ns} else Freed(s, ns, key)
    case ReleaseRun(run) =>
      if run == "" then s else DropWhere(s, OwnedBy(run))
    case ReapAll(live, now) =>
      if live.None? then s else DropWhere(s, ExpiredAndDead(live.value, now))
  }

  function After(max: nat, calls: seq<Call>): Table {
    if calls == [] then map[] else Step(After(max, calls[..|calls| - 1]), max, calls[|calls| - 1])
  }

  // ---------------------------------------------------------------- one call

  /** Every lock has a valid namespace and a named owner, and the namespaces are within bounds. */
  predicate Sound(s: Table, max: nat) {
    && |s| <= max
    && forall ns :: ns in s ==> ValidName(ns) && forall key :: key in s[ns] ==> s[ns][key].run != ""
  }

  lemma DroppedHolds(s: Table, gone: Hold -> bool, ns: string, key: string)
    ensures HoldAt(DropWhere(s, gone), ns, key) ==
      var h := HoldAt(s, ns, key); if h.Some? && gone(h.value) then None else h
  {
    if ns in s && key in s[ns] && !gone(s[ns][key]) {
      assert key in Remaining(s[ns], gone);
    }
  }

  lemma FewerNamespaces(s: Table, t: Table)
    requires t.Keys <= s.Keys
    ensures |t| <= |s|
  {
    assert |t| == |t.Keys| && |s| == |s.Keys|;
    var rest := s.Keys - t.Keys;
    assert s.Keys == t.Keys + rest;
  }

  lemma StepSound(s: Table, max: nat, c: Call)
    requires Sound(s, max)
    ensures Sound(Step(s, max, c), max)
  {
    match c {
      case Take(_, _, _, _, _, _, _) => TakeSound(s, max, c);
      case SetPin(ns, key, run, pinned) =>
        if OwnerRefusal(s, ns, key, run).None? {
          PutSound(s, max, ns, key, s[ns][key].(pinned := pinned));
        }
      case Release(ns, key, run) =>
        if OwnerRefusal(s, ns, key, run).None? {
          FreedSound(s, max, ns, key);
        }
      case ReapOne(ns, key, _, _) =>
        if Reapable(s, c) {
          FreedSound(s, max, ns, key);
        }
      case ReleaseRun(run) => DropSound(s, max, OwnedBy(run));
      case ReapAll(live, now) => if live.Some? { DropSound(s, max, ExpiredAndDead(live.value, now)); }
    }
  }

  lemma FreedSound(s: Table, max: nat, ns: string, key: string)
    requires Sound(s, max) && ns in s
    ensures Sound(Freed(s, ns, key), max) && Sound(s - {ns}, max)
  {
    FewerNamespaces(s, Freed(s, ns, key));
    FewerNamespaces(s, s - {ns});
  }

  lemma TakeSound(s: Table, max: nat, c: Call)
    requires Sound(s, max) && c.Take?
    ensures Sound(Step(s, max, c), max)
  {
    if TakeRefusal(s, max, c).None? {
      PutSound(s, max, c.ns, c.key, TakenHold(s, c));
    }
  }

  lemma PutSound(s: Table, max: nat, ns: string, key: string, h: Hold)
    requires Sound(s, max) && ValidName(ns) && h.run != "" && (ns in s || |s| < max)
    ensures Sound(PutHold(s, ns, key, h), max)
  {
    var t := PutHold(s, ns, key, h);
    assert t.Keys == s.Keys + {ns};
    assert |t| == |t.Keys| && |s| == |s.Keys|;
    if ns in s {
      assert t.Keys == s.Keys;
    }
  }

  lemma DropSound(s: Table, max: nat, gone: Hold -> bool)
    requires Sound(s, max)
    ensures Sound(DropWhere(s, gone), max)
  {
    FewerNamespaces(s, DropWhere(s, gone));
  }

  predicate Names(c: Call, ns: string, key: string, run: string) {
    (c.Take? || c.SetPin? || c.Release? || c.ReapOne?) && c.ns == ns && c.key == key && c.run == run
  }

  /** The calls after which the run no longer has the hold h it had before. */
  predicate Ends(c: Call, ns: string, key: string, h: Hold) {
    match c
    case Take(cns, ckey, run, _, steal, _, now) =>
      cns == ns && ckey == key && run != h.run && run != "" && steal && (!h.pinned || Expired(h, now))
    case SetPin(_, _, _, _) => false
    case Release(_, _, _) => Names(c, ns, key, h.run)
    case ReapOne(_, _, _, now) => Names(c, ns, key, h.run) && Expired(h, now)
    case ReleaseRun(run) => run == h.run
    case ReapAll(live, now) => live.Some? && Expired(h, now) && h.run !in live.value
  }

  /** A hold is lost exactly by a steal of an unpinned or expired lock, or by the named ways to free it. */
  lemma EndsExactly(s: Table, max: nat, c: Call, ns: string, key: string)
    requires Sound(s, max) && HoldAt(s, ns, key).Some?
    ensures var h := HoldAt(s, ns, key).value;
      !HeldBy(Step(s, max, c), ns, key, h.run) <==> Ends(c, ns, key, h)
  {
    match c {
      case ReleaseRun(run) => DroppedHolds(s, OwnedBy(run), ns, key);
      case ReapAll(live, now) => if live.Some? { DroppedHolds(s, ExpiredAndDead(live.value, now), ns, key); }
      case ReapOne(cns, ckey, _, _) => ReapedHolds(s, max, c, ns, key);
      case _ =>
    }
  }

  lemma ReapedHolds(s: Table, max: nat, c: Call, ns: string, key: string)
    requires c.ReapOne?
    ensures HoldAt(Step(s, max, c), ns, key) ==
      if Reapable(s, c) && c.ns == ns && c.key == key then None else HoldAt(s, ns, key)
  {
    if Reapable(s, c) && c.ns == ns && |s[ns]| == 1 && key in s[ns] {
      OnlyOne(s[ns].Keys, key, c.key);
    }
  }

  lemma OnlyOne(keys: set<string>, a: string, b: string)
    requires |keys| == 1 && a in keys && b in keys
    ensures a == b
  {
    var rest := keys - {a};
    assert |rest| == 0;
    assert keys == {a} + rest;
  }

  /** The key passes from one run straight to another only by a steal, which starts a new tenure. */
  lemma PassesByStealOnly(s: Table, max: nat, c: Call, ns: string, key: string)
    requires Sound(s, max) && HoldAt(s, ns, key).Some? && HoldAt(Step(s, max, c), ns, key).Some?
    ensures var h, h' := HoldAt(s, ns, key).value, HoldAt(Step(s, max, c), ns, key).value;
      h'.run != h.run ==>
        && c.Take? && c.steal && Names(c, ns, key, h'.run) && (!h.pinned || Expired(h, c.now))
        && h' == Hold(c.run, c.now, c.now + LockTtl(c.ttl), c.pin)
  {
    match c {
      case ReleaseRun(run) => DroppedHolds(s, OwnedBy(run), ns, key);
      case ReapAll(live, now) => if live.Some? { DroppedHolds(s, ExpiredAndDead(live.value, now), ns, key); }
      case ReapOne(_, _, _, _) => ReapedHolds(s, max, c, ns, key);
      case _ =>
    }
  }

  /** A free key becomes held only by a take that names it. */
  lemma TakenFromFree(s: Table, max: nat, c: Call, ns: string, key: string)
    requires HoldAt(s, ns, key).None? && HoldAt(Step(s, max, c), ns, key).Some?
    ensures c.Take? && TakeRefusal(s, max, c).None? && c.ns == ns && c.key == key
    ensures HoldAt(Step(s, max, c), ns, key).value == Hold(c.run, c.now, c.now + LockTtl(c.ttl), c.pin)
  {
    match c {
      case ReleaseRun(run) => DroppedHolds(s, OwnedBy(run), ns, key);
      case ReapAll(live, now) => if live.Some? { DroppedHolds(s, ExpiredAndDead(live.value, now), ns, key); }
      case ReapOne(_, _, _, _) => ReapedHolds(s, max, c, ns, key);
      case _ =>
    }
  }

  predicate Retakes(c: Call, ns: string, key: string, run: string) {
    c.Take? && Names(c, ns, key, run)
  }

  predicate Pins(c: Call, ns: string, key: string, run: string) {
    Names(c, ns, key, run) && ((c.Take? && c.pin) || (c.SetPin? && c.pinned))
  }

  predicate Unpins(c: Call, ns: string, key: string, run: string) {
    Names(c, ns, key, run) && c.SetPin? && !c.pinned
  }

  /** Within a tenure: the take time is fixed, only the owner's calls move the pin and the expiry. */
  lemma HoldEvolves(s: Table, max: nat, c: Call, ns: string, key: string)
    requires Sound(s, max) && HoldAt(s, ns, key).Some?
    requires HeldBy(Step(s, max, c), ns, key, HoldAt(s, ns, key).value.run)
    ensures var h, h' := HoldAt(s, ns, key).value, HoldAt(Step(s, max, c), ns, key).value;
      && h'.acquiredAt == h.acquiredAt
      && h'.pinned == (Pins(c, ns, key, h.run) || (h.pinned && !Unpins(c, ns, key, h.run)))
      && h'.expiresAt == if Retakes(c, ns, key, h.run) then c.now + LockTtl(c.ttl) else h.expiresAt
  {
    match c {
      case ReleaseRun(run) => DroppedHolds(s, OwnedBy(run), ns, key);
      case ReapAll(live, now) => if live.Some? { DroppedHolds(s, ExpiredAndDead(live.value, now), ns, key); }
      case ReapOne(_, _, _, _) => ReapedHolds(s, max, c, ns, key);
      case _ =>
    }
  }

  // ---------------------------------------------------------------- whole histories

  lemma {:induction false} AfterSound(max: nat, calls: seq<Call>)
    ensures Sound(After(max, calls), max)
  {
    if calls != [] {
      AfterSound(max, calls[..|calls| - 1]);
      StepSound(After(max, calls[..|calls| - 1]), max, calls[|calls| - 1]);
    }
  }

  /** Call number m took the key for h's run, at h's take time, and the run has held it ever since. */
  ghost predicate Tenure(max: nat, calls: seq<Call>, ns: string, key: string, h: Hold, m: nat) {
    && m < |calls| && Retakes(calls[m], ns, key, h.run) && calls[m].now == h.acquiredAt
    && !HeldBy(After(max, calls[..m]), ns, key, h.run)
    && forall j :: m < j <= |calls| ==> HeldBy(After(max, calls[..j]), ns, key, h.run)
  }

  /** The run's pins and unpins since call m end in a pin. */
  ghost predicate PinnedSince(calls: seq<Call>, ns: string, key: string, run: string, m: nat) {
    exists p :: m <= p < |calls| && Pins(calls[p], ns, key, run)
      && forall q :: p < q < |calls| ==> !Unpins(calls[q], ns, key, run)
  }

  predicate LatestTake(calls: seq<Call>, ns: string, key: string, run: string, p: nat) {
    && p < |calls| && Retakes(calls[p], ns, key, run)
    && forall q :: p < q < |calls| ==> !Retakes(calls[q], ns, key, run)
  }

  /** The expiry set by the run's latest take, at or after call m. */
  ghost predicate ExpirySince(calls: seq<Call>, ns: string, key: string, h: Hold, m: nat) {
    exists p :: m <= p && LatestTake(calls, ns, key, h.run, p) && h.expiresAt == calls[p].now + LockTtl(calls[p].ttl)
  }

  /** What a history says of the hold h that it leaves on a key, with the tenure started by call m. */
  ghost predicate Explains(max: nat, calls: seq<Call>, ns: string, key: string, h: Hold, m: nat) {
    && Tenure(max, calls, ns, key, h, m)
    && (h.pinned <==> PinnedSince(calls, ns, key, h.run, m))
    && ExpirySince(calls, ns, key, h, m)
  }

  /**
    Every hold in the table is explained by the calls alone: it goes back to one granted take, its
    take time is that take's, it is pinned exactly when the owner's last word was a pin, and it
    expires as the owner's latest take said.
   */
  lemma {:induction false} HoldHistory(max: nat, calls: seq<Call>, ns: string, key: string) returns (m: nat)
    requires HoldAt(After(max, calls), ns, key).Some?
    ensures Explains(max, calls, ns, key, HoldAt(After(max, calls), ns, key).value, m)
  {
    var front := calls[..|calls| - 1];
    if HeldBy(After(max, front), ns, key, HoldAt(After(max, calls), ns, key).value.run) {
      m := HoldHistory(max, front, ns, key);
      TenureContinues(max, calls, ns, key, m);
    } else {
      m := |calls| - 1;
      TenureStarts(max, calls, ns, key);
    }
  }

  lemma TenureStarts(max: nat, calls: seq<Call>, ns: string, key: string)
    requires calls != [] && HoldAt(After(max, calls), ns, key).Some?
    requires !HeldBy(After(max, calls[..|calls| - 1]), ns, key, HoldAt(After(max, calls), ns, key).value.run)
    ensures Explains(max, calls, ns, key, HoldAt(After(max, calls), ns, key).value, |calls| - 1)
  {
    var n := |calls| - 1;
    var s, h := After(max, calls[..n]), HoldAt(After(max, calls), ns, key).value;
    AfterSound(max, calls[..n]);
    assert calls[..|calls|] == calls;
    if HoldAt(s, ns, key).Some? {
      PassesByStealOnly(s, max, calls[n], ns, key);
    } else {
      TakenFromFree(s, max, calls[n], ns, key);
    }
    assert LatestTake(calls, ns, key, h.run, n) && h.pinned == Pins(calls[n], ns, key, h.run);
  }

  lemma TenureContinues(max: nat, calls: seq<Call>, ns: string, key: string, m: nat)
    requires calls != [] && HoldAt(After(max, calls), ns, key).Some?
    requires HeldBy(After(max, calls[..|calls| - 1]), ns, key, HoldAt(After(max, calls), ns, key).value.run)
    requires Explains(max, calls[..|calls| - 1], ns, key, HoldAt(After(max, calls[..|calls| - 1]), ns, key).value, m)
    ensures Explains(max, calls, ns, key, HoldAt(After(max, calls), ns, key).value, m)
  {
    var front, c := calls[..|calls| - 1], calls[|calls| - 1];
    var s := After(max, front);
    var was, h := HoldAt(s, ns, key).value, HoldAt(After(max, calls), ns, key).value;
    AfterSound(max, front);
    HoldEvolves(s, max, c, ns, key);
    TenureGrows(max, calls, ns, key, was, m);
    PinGrows(calls, ns, key, h.run, m);
    ExpiryGrows(calls, ns, key, was, h, m);
  }

  lemma TenureGrows(max: nat, calls: seq<Call>, ns: string, key: string, h: Hold, m: nat)
    requires calls != [] && Tenure(max, calls[..|calls| - 1], ns, key, h, m)
    requires HeldBy(After(max, calls), ns, key, h.run)
    ensures Tenure(max, calls, ns, key, h, m)
  {
    var front := calls[..|calls| - 1];
    assert front[..m] == calls[..m] && calls[..|calls|] == calls;
    forall j | m < j <= |calls| ensures HeldBy(After(max, calls[..j]), ns, key, h.run) {
      if j < |calls| {
        assert front[..j] == calls[..j];
      }
    }
  }

  lemma PinGrows(calls: seq<Call>, ns: string, key: string, run: string, m: nat)
    requires m + 1 < |calls|
    ensures var c := calls[|calls| - 1];
      PinnedSince(calls, ns, key, run, m) <==>
        Pins(c, ns, key, run) || (PinnedSince(calls[..|calls| - 1], ns, key, run, m) && !Unpins(c, ns, key, run))
  {
    var n := |calls| - 1;
    var front := calls[..n];
    if PinnedSince(calls, ns, key, run, m) && !Pins(calls[n], ns, key, run) {
      var p :| m <= p < |calls| && Pins(calls[p], ns, key, run)
        && forall q :: p < q < |calls| ==> !Unpins(calls[q], ns, key, run);
      assert Pins(front[p], ns, key, run);
    }
    if PinnedSince(front, ns, key, run, m) && !Unpins(calls[n], ns, key, run) {
      var p :| m <= p < n && Pins(front[p], ns, key, run) && forall q :: p < q < n ==> !Unpins(front[q], ns, key, run);
      forall q | p < q < |calls| ensures !Unpins(calls[q], ns, key, run) {
        assert q < n ==> calls[q] == front[q];
      }
      assert Pins(calls[p], ns, key, run);
    }
  }

  lemma ExpiryGrows(calls: seq<Call>, ns: string, key: string, h: Hold, h': Hold, m: nat)
    requires m + 1 < |calls| && h.run == h'.run && ExpirySince(calls[..|calls| - 1], ns, key, h, m)
    requires var c := calls[|calls| - 1];
      h'.expiresAt == if Retakes(c, ns, key, h.run) then c.now + LockTtl(c.ttl) else h.expiresAt
    ensures ExpirySince(calls, ns, key, h', m)
  {
    var n := |calls| - 1;
    var front := calls[..n];
    if Retakes(calls[n], ns, key, h.run) {
      assert LatestTake(calls, ns, key, h'.run, n);
    } else {
      var p :| m <= p && LatestTake(front, ns, key, h.run, p) && h.expiresAt == front[p].now + LockTtl(front[p].ttl);
      forall q | p < q < |calls| ensures !Retakes(calls[q], ns, key, h.run) {
        assert q < n ==> calls[q] == front[q];
      }
      assert LatestTake(calls, ns, key, h'.run, p);
    }
  }

  /** A run that held the key and later does not was ended by a call in between, and by no other kind. */
  lemma {:induction false} TenureEnded(max: nat, calls: seq<Call>, ns: string, key: string, run: string, i: nat)
    returns (k: nat)
    requires i <= |calls| && HeldBy(After(max, calls[..i]), ns, key, run) && !HeldBy(After(max, calls), ns, key, run)
    ensures i <= k < |calls| && HeldBy(After(max, calls[..k]), ns, key, run)
    ensures Ends(calls[k], ns, key, HoldAt(After(max, calls[..k]), ns, key).value)
  {
    assert calls[..|calls|] == calls;
    var front := calls[..|calls| - 1];
    assert front[..i] == calls[..i];
    if HeldBy(After(max, front), ns, key, run) {
      k := |calls| - 1;
      LastCallEnds(max, calls, ns, key);
    } else {
      k := TenureEnded(max, front, ns, key, run, i);
      assert front[..k] == calls[..k];
    }
  }

  lemma LastCallEnds(max: nat, calls: seq<Call>, ns: string, key: string)
    requires calls != [] && HoldAt(After(max, calls[..|calls| - 1]), ns, key).Some?
    ensures var h := HoldAt(After(max, calls[..|calls| - 1]), ns, key).value;
      !HeldBy(After(max, calls), ns, key, h.run) <==> Ends(calls[|calls| - 1], ns, key, h)
  {
    AfterSound(max, calls[..|calls| - 1]);
    EndsExactly(After(max, calls[..|calls| - 1]), max, calls[|calls| - 1], ns, key);
  }

  // ---------------------------------------------------------------- expiry frees nothing

  /** A take is granted exactly if the key is free, with room, or the run's own, or may be stolen and is. */
  lemma GrantedExactly(s: Table, max: nat, c: Call)
    requires c.Take? && ValidName(c.ns) && c.run != ""
    ensures TakeRefusal(s, max, c).None? <==>
      match HoldAt(s, c.ns, c.key)
      case None => c.ns in s || |s| < max
      case Some(h) => h.run == c.run || (c.steal && (!h.pinned || h.expiresAt <= c.now))
  {
  }

  /** And lasts as long as it asks for, or 15 minutes if it asks for no positive time. */
  lemma TakeLasts(s: Table, max: nat, c: Call)
    requires c.Take? && TakeRefusal(s, max, c).None?
    ensures var h := HoldAt(Step(s, max, c), c.ns, c.key);
      && h.Some? && h.value.run == c.run
      && (c.ttl > 0 ==> h.value.expiresAt == c.now + c.ttl)
      && (c.ttl <= 0 ==> h.value.expiresAt == c.now + 15 * 60 * 1_000_000_000)
      && (!HeldBy(s, c.ns, c.key, c.run) ==> h.value.acquiredAt == c.now && h.value.pinned == c.pin)
  {
  }

  /** So an expired lock is not free: another run's acquire is refused, however late it comes. */
  lemma ExpiredIsNotFree(max: nat, ns: string, key: string, a: string, b: string, ttl: Time, now: Time, late: Time)
    requires max > 0 && ValidName(ns) && a != "" && b != "" && a != b && now + LockTtl(ttl) <= late
    ensures var first, second := Take(ns, key, a, ttl, false, false, now), Take(ns, key, b, ttl, false, false, late);
      && HeldBy(After(max, [first]), ns, key, a) && Expired(HoldAt(After(max, [first]), ns, key).value, late)
      && TakeRefusal(After(max, [first]), max, second) == Some(HeldExpired)
      && After(max, [first, second]) == After(max, [first])
  {
    var first, second := Take(ns, key, a, ttl, false, false, now), Take(ns, key, b, ttl, false, false, late);
    assert [first][..0] == [] && [first, second][..1] == [first];
    assert After(max, [first]) == PutHold(map[], ns, key, Hold(a, now, now + LockTtl(ttl), false));
  }
}
