/** A bbolt bucket keyed by the chronological index key: rows in strictly increasing key order. */
module Buckets {
  import opened KeyCodec

  /** The (time, run id) pair that timeKey encodes; KeyOrder says byte order is this order. */
  datatype Key = Key(t: nat, id: string)

  type Rows<V> = seq<(Key, V)>

  predicate Before(a: Key, b: Key) {
    a.t < b.t || (a.t == b.t && Less(a.id, b.id))
  }

  lemma BeforeOrder(a: Key, b: Key, c: Key)
    ensures !Before(a, a)
    ensures Before(a, b) && Before(b, c) ==> Before(a, c)
    ensures Before(a, b) || Before(b, a) || a == b
  {
    LessIrreflexive(a.id);
    LessTotal(a.id, b.id);
    if a.t == b.t == c.t && Less(a.id, b.id) && Less(b.id, c.id) {
      LessTransitive(a.id, b.id, c.id);
    }
  }

  predicate Sorted<V>(rows: Rows<V>) {
    forall i, j :: 0 <= i < j < |rows| ==> Before(rows[i].0, rows[j].0)
  }

  function Put<V>(rows: Rows<V>, k: Key, v: V): Rows<V> {
    if rows == [] then [(k, v)]
    else if rows[0].0 == k then [(k, v)] + rows[1..]
    else if Before(k, rows[0].0) then [(k, v)] + rows
    else [rows[0]] + Put(rows[1..], k, v)
  }

  function Without<V>(rows: Rows<V>, ks: set<Key>): Rows<V> {
    if rows == [] then []
    else (if rows[0].0 in ks then [] else [rows[0]]) + Without(rows[1..], ks)
  }

  lemma KeysDistinct<V(!new)>(rows: Rows<V>, i: nat, j: nat)
    requires Sorted(rows) && i < |rows| && j < |rows| && rows[i].0 == rows[j].0
    ensures i == j
  {
    BeforeOrder(rows[i].0, rows[j].0, rows[j].0);
  }

  lemma {:induction false} PutMembers<V(!new)>(rows: Rows<V>, k: Key, v: V)
    requires Sorted(rows)
    ensures forall row :: row in Put(rows, k, v) <==> row == (k, v) || (row in rows && row.0 != k)
  {
    if rows != [] {
      assert rows == [rows[0]] + rows[1..];
      forall j | 0 < j < |rows| ensures rows[j].0 != rows[0].0 && (Before(k, rows[0].0) ==> rows[j].0 != k) {
        BeforeOrder(k, rows[0].0, rows[j].0);
        BeforeOrder(rows[0].0, rows[j].0, k);
        BeforeOrder(k, k, k);
      }
      BeforeOrder(k, rows[0].0, k);
      if rows[0].0 != k && !Before(k, rows[0].0) {
        PutMembers(rows[1..], k, v);
      }
    }
  }

  lemma {:induction false} PutSorted<V(!new)>(rows: Rows<V>, k: Key, v: V)
    requires Sorted(rows)
    ensures Sorted(Put(rows, k, v))
  {
    if rows != [] {
      var first := rows[0].0;
      if first != k && Before(k, first) {
        forall j | 0 <= j < |rows| ensures Before(k, rows[j].0) {
          BeforeOrder(k, first, rows[j].0);
        }
      } else if first != k {
        var rest := Put(rows[1..], k, v);
        PutSorted(rows[1..], k, v);
        PutMembers(rows[1..], k, v);
        BeforeOrder(first, k, k);
        forall j | 0 <= j < |rest| ensures Before(first, rest[j].0) {
          var row := rest[j];
          assert row in Put(rows[1..], k, v);
          if row != (k, v) {
            assert row in rows[1..];
            var m :| 0 <= m < |rows[1..]| && rows[1..][m] == row;
            assert rows[m + 1] == row;
          }
        }
      }
    }
  }

  lemma {:induction false} WithoutMembers<V(!new)>(rows: Rows<V>, ks: set<Key>)
    ensures forall row :: row in Without(rows, ks) <==> row in rows && row.0 !in ks
  {
    if rows != [] {
      WithoutMembers(rows[1..], ks);
    }
  }

  lemma {:induction false} WithoutSorted<V(!new)>(rows: Rows<V>, ks: set<Key>)
    requires Sorted(rows)
    ensures Sorted(Without(rows, ks))
  {
    if rows != [] {
      var rest := Without(rows[1..], ks);
      WithoutSorted(rows[1..], ks);
      WithoutMembers(rows[1..], ks);
      forall j | 0 <= j < |rest| ensures Before(rows[0].0, rest[j].0) {
        var row := rest[j];
        assert row in Without(rows[1..], ks);
        assert row in rows[1..];
        var m :| 0 <= m < |rows[1..]| && rows[1..][m] == row;
        assert rows[m + 1] == row;
      }
    }
  }

  /** Deleting the keys of a prefix leaves the rest. */
  lemma {:induction false} WithoutPrefix<V(!new)>(rows: Rows<V>, ks: set<Key>, c: nat)
    requires c <= |rows| && forall i :: 0 <= i < |rows| ==> (rows[i].0 in ks <==> i < c)
    ensures Without(rows, ks) == rows[c..]
  {
    if rows != [] {
      WithoutPrefix(rows[1..], ks, if c == 0 then 0 else c - 1);
    }
  }

  // ---------------------------------------------------------------- expiry

  /** The rows a chronological pass visits before it meets the first unexpired key. */
  function ExpiredPrefix<V>(rows: Rows<V>, cutoff: int): Rows<V> {
    if rows == [] || rows[0].0.t > cutoff then [] else [rows[0]] + ExpiredPrefix(rows[1..], cutoff)
  }

  lemma {:induction false} ExpiredPrefixIs<V(!new)>(rows: Rows<V>, cutoff: int)
    requires Sorted(rows)
    ensures |ExpiredPrefix(rows, cutoff)| <= |rows|
    ensures ExpiredPrefix(rows, cutoff) == rows[..|ExpiredPrefix(rows, cutoff)|]
    ensures forall i :: 0 <= i < |rows| ==> (i < |ExpiredPrefix(rows, cutoff)| <==> rows[i].0.t <= cutoff)
  {
    if rows != [] {
      if rows[0].0.t <= cutoff {
        ExpiredPrefixIs(rows[1..], cutoff);
      } else {
        forall i | 0 < i < |rows| ensures rows[i].0.t > cutoff {
          assert Before(rows[0].0, rows[i].0);
        }
      }
    }
  }
}
