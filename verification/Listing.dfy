/** The filtered cursor walk of internal/runstore, against a plain filter over the whole index. */
module Listing {
  import opened Basics
  import KeyCodec
  import opened Buckets
  import opened Archive

  /** An index row with the status its value carries: per-hook rows do, bytime rows do not. */
  type Index = Rows<Option<string>>

  function TimeIndex(bytime: Rows<string>): Index {
    seq(|bytime|, i requires 0 <= i < |bytime| => (bytime[i].0, None))
  }

  function HookIndex(rows: Rows<KeyCodec.Summary>): Index {
    seq(|rows|, i requires 0 <= i < |rows| => (rows[i].0, Some(rows[i].1.status)))
  }

  /** A listing request against one snapshot of the metadata bucket. */
  datatype Query = Query(metas: map<string, Run>, before: Option<int>, exclude: set<string>, cutoff: int)

  /** What a row shows for: older than the cursor, unexpired, on record, status not excluded. */
  predicate Visible(q: Query, k: Key) {
    && (q.before.Some? ==> k.t < q.before.value)
    && k.t > q.cutoff
    && k.id in q.metas && q.metas[k.id].status !in q.exclude
  }

  /** The reference: every visible run, newest first, judged by its full metadata. */
  function Full(rows: Index, q: Query): seq<Run> {
    if rows == [] then [] else Shown(q, rows[|rows| - 1].0) + Full(rows[..|rows| - 1], q)
  }

  function Shown(q: Query, k: Key): seq<Run> {
    if Visible(q, k) then [q.metas[k.id]] else []
  }

  /** A positive max caps the list; anything else does not. */
  function Capped<T>(s: seq<T>, max: int): seq<T> {
    if max > 0 && |s| > max then s[..max] else s
  }

  /** A status carried by the index is the status in the metadata. */
  predicate HintsTrue(rows: Index, metas: map<string, Run>) {
    forall i :: 0 <= i < |rows| && rows[i].1.Some? && rows[i].0.id in metas ==>
      rows[i].1.value == metas[rows[i].0.id].status
  }

  lemma {:induction false} NothingVisible(rows: Index, q: Query)
    requires forall i :: 0 <= i < |rows| ==> !Visible(q, rows[i].0)
    ensures Full(rows, q) == []
  {
    if rows != [] {
      NothingVisible(rows[..|rows| - 1], q);
    }
  }

  /** Rows from position c on do not show. */
  lemma {:induction false} FullOfPrefix(rows: Index, q: Query, c: nat)
    requires c <= |rows| && forall i :: c <= i < |rows| ==> !Visible(q, rows[i].0)
    ensures Full(rows, q) == Full(rows[..c], q)
  {
    if c < |rows| {
      var front := rows[..|rows| - 1];
      FullOfPrefix(front, q, c);
      assert front[..c] == rows[..c];
    } else {
      assert rows[..c] == rows;
    }
  }

  /** seekBefore: how many rows are strictly older than the instant; all of them without one. */
  method SeekBefore(rows: Index, before: Option<int>) returns (c: nat)
    requires Sorted(rows)
    ensures c <= |rows|
    ensures forall i :: 0 <= i < c ==> before.None? || rows[i].0.t < before.value
    ensures forall i :: c <= i < |rows| ==> before.Some? && before.value <= rows[i].0.t
  {
    if before.None? {
      return |rows|;
    }
    c := 0;
    while c < |rows| && rows[c].0.t < before.value
      invariant c <= |rows| && forall i :: 0 <= i < c ==> rows[i].0.t < before.value
    {
      c := c + 1;
    }
    forall i | c <= i < |rows| ensures before.value <= rows[i].0.t {
      if c < i {
        assert Before(rows[c].0, rows[i].0);
      }
    }
  }

  /**
    collectBefore: seek, walk towards the past, stop at the cap or at the first expired key,
    and skip on the index status before touching metadata. It returns what filtering the full
    metadata and then cutting to max returns.
   */
  method CollectBefore(rows: Index, q: Query, max: int) returns (out: seq<Run>)
    requires Sorted(rows) && HintsTrue(rows, q.metas)
    ensures out == Capped(Full(rows, q), max)
  {
    out := [];
    var i := SeekBefore(rows, q.before);
    FullOfPrefix(rows, q, i);
    while i > 0
      invariant 0 <= i <= |rows|
      invariant Full(rows, q) == out + Full(rows[..i], q)
      invariant forall j :: 0 <= j < i ==> q.before.None? || rows[j].0.t < q.before.value
      invariant max > 0 ==> |out| <= max
    {
      if max > 0 && |out| >= max {
        return;
      }
      var k, hint := rows[i - 1].0, rows[i - 1].1;
      if k.t <= q.cutoff {
        OlderExpired(rows, i, q.cutoff);
        NothingVisible(rows[..i], q);
        return;
      }
      FullFromNewest(rows, q, i, out);
      i := i - 1;
      if hint.Some? && hint.value in q.exclude {
        continue;
      }
      if k.id !in q.metas || q.metas[k.id].status in q.exclude {
        continue;
      }
      out := out + [q.metas[k.id]];
    }
  }

  lemma FullFromNewest(rows: Index, q: Query, i: nat, out: seq<Run>)
    requires 0 < i <= |rows|
    ensures out + Full(rows[..i], q) == (out + Shown(q, rows[i - 1].0)) + Full(rows[..i - 1], q)
    ensures Shown(q, rows[i - 1].0) == [] ==> out + Shown(q, rows[i - 1].0) == out
  {
    assert rows[..i][..i - 1] == rows[..i - 1];
  }

  lemma OlderExpired(rows: Index, i: nat, cutoff: int)
    requires Sorted(rows) && 0 < i <= |rows| && rows[i - 1].0.t <= cutoff
    ensures forall j :: 0 <= j < i ==> rows[j].0.t <= cutoff
  {
    forall j | 0 <= j < i - 1 ensures rows[j].0.t <= cutoff {
      assert Before(rows[j].0, rows[i - 1].0);
    }
  }

  /** In an archive whose buckets agree, both indexes satisfy what the walk relies on. */
  lemma AgreeingIndexes(a: Archive.State, hook: string)
    requires Agree(a)
    ensures Sorted(TimeIndex(a.bytime)) && HintsTrue(TimeIndex(a.bytime), a.metas)
    ensures Sorted(HookIndex(HookRows(a, hook))) && HintsTrue(HookIndex(HookRows(a, hook)), a.metas)
  {
    var rows := HookRows(a, hook);
    assert Sorted(rows);
    forall i | 0 <= i < |rows| && rows[i].0.id in a.metas ensures rows[i].1.status == a.metas[rows[i].0.id].status {
      assert (rows[i].0, rows[i].1) in HookRows(a, hook);
    }
  }
}
