/** Small value types and sequence facts shared by every component. */
module Basics {

  datatype Option<+T> = None | Some(value: T)

  /** Looks a key up in a map, as Go's comma-ok form does. */
  function Lookup<K, V>(m: map<K, V>, k: K): (r: Option<V>)
    ensures r.Some? <==> k in m
    ensures r.Some? ==> r.value == m[k]
  {
    if k in m then Some(m[k]) else None
  }

  /** Looks a key up in a map, with the zero value for a missing key. */
  function GetOr<K, V>(m: map<K, V>, k: K, zero: V): V {
    if k in m then m[k] else zero
  }

  /** The rule for hook ids, namespaces and queue names: lower-case kebab-case, at most 128 bytes. */
  predicate ValidName(s: string) {
    && 0 < |s| <= 128 && s[0] != '-'
    && forall i :: 0 <= i < |s| ==> 'a' <= s[i] <= 'z' || '0' <= s[i] <= '9' || s[i] == '-'
  }

  predicate NoDup<T(==)>(s: seq<T>) {
    forall i, j :: 0 <= i < j < |s| ==> s[i] != s[j]
  }

  function Max(a: int, b: int): int {
    if a < b then b else a
  }

  function Min(a: int, b: int): int {
    if a < b then a else b
  }

  /** The sequence without the first occurrence of x; unchanged when x is absent. */
  function RemoveFirst<T(==)>(s: seq<T>, x: T): seq<T> {
    if s == [] then []
    else if s[0] == x then s[1..]
    else [s[0]] + RemoveFirst(s[1..], x)
  }

  lemma {:induction false} RemoveFirstCounts<T>(s: seq<T>, x: T)
    ensures multiset(RemoveFirst(s, x)) == multiset(s) - multiset{x}
    ensures |RemoveFirst(s, x)| == if x in s then |s| - 1 else |s|
  {
    if s != [] {
      assert s == [s[0]] + s[1..];
      if s[0] != x {
        RemoveFirstCounts(s[1..], x);
      }
    }
  }

  lemma {:induction false} RemoveFirstMembers<T>(s: seq<T>, x: T)
    requires NoDup(s)
    ensures NoDup(RemoveFirst(s, x))
    ensures forall y :: y in RemoveFirst(s, x) <==> y in s && y != x
  {
    if s != [] && s[0] != x {
      var rest := RemoveFirst(s[1..], x);
      RemoveFirstMembers(s[1..], x);
      assert s[0] !in s[1..];
      assert s[0] !in rest;
    }
  }

  /** Removing the element at the first index that holds x is RemoveFirst. */
  lemma {:induction false} RemoveFirstAt<T>(s: seq<T>, x: T, k: nat)
    requires k < |s| && s[k] == x && x !in s[..k]
    ensures RemoveFirst(s, x) == s[..k] + s[k + 1..]
  {
    if k > 0 {
      assert s[0] == s[..k][0];
      assert s[1..][..k - 1] == s[..k][1..];
      RemoveFirstAt(s[1..], x, k - 1);
      assert s[..k] == [s[0]] + s[1..][..k - 1];
      assert s[1..][k..] == s[k + 1..];
    }
  }

  lemma {:induction false} RemoveFirstAbsent<T>(s: seq<T>, x: T)
    requires x !in s
    ensures RemoveFirst(s, x) == s
  {
    if s != [] {
      RemoveFirstAbsent(s[1..], x);
    }
  }

  // ---------------------------------------------------------------- stable sorting by rank

  predicate Ranked<T(!new)>(s: seq<T>, rank: T -> int) {
    forall i, j :: 0 <= i < j < |s| ==> rank(s[i]) <= rank(s[j])
  }

  /** Puts x after every element of the same or a lower rank. */
  function InsertBy<T>(s: seq<T>, x: T, rank: T -> int): seq<T> {
    if s == [] then [x]
    else if rank(x) < rank(s[0]) then [x] + s
    else [s[0]] + InsertBy(s[1..], x, rank)
  }

  /** Go's sort.SliceStable with a comparison by rank. */
  function SortBy<T>(s: seq<T>, rank: T -> int): seq<T> {
    if s == [] then [] else InsertBy(SortBy(s[..|s| - 1], rank), s[|s| - 1], rank)
  }

  lemma {:induction false} InsertByMembers<T>(s: seq<T>, x: T, rank: T -> int)
    ensures multiset(InsertBy(s, x, rank)) == multiset(s) + multiset{x}
  {
    if s != [] {
      assert s == [s[0]] + s[1..];
      if rank(x) >= rank(s[0]) {
        InsertByMembers(s[1..], x, rank);
      }
    }
  }

  lemma {:induction false} InsertByRanked<T(!new)>(s: seq<T>, x: T, rank: T -> int)
    requires Ranked(s, rank)
    ensures Ranked(InsertBy(s, x, rank), rank)
  {
    if s != [] && rank(x) >= rank(s[0]) {
      var rest := InsertBy(s[1..], x, rank);
      InsertByRanked(s[1..], x, rank);
      InsertByMembers(s[1..], x, rank);
      forall j | 0 <= j < |rest| ensures rank(s[0]) <= rank(rest[j]) {
        assert rest[j] in multiset(rest);
        assert rest[j] == x || rest[j] in s[1..];
      }
    }
  }

  lemma {:induction false} SortByRanks<T(!new)>(s: seq<T>, rank: T -> int)
    ensures Ranked(SortBy(s, rank), rank) && multiset(SortBy(s, rank)) == multiset(s)
  {
    if s != [] {
      var front := s[..|s| - 1];
      assert s == front + [s[|s| - 1]];
      SortByRanks(front, rank);
      InsertByRanked(SortBy(front, rank), s[|s| - 1], rank);
      InsertByMembers(SortBy(front, rank), s[|s| - 1], rank);
    }
  }

  // ---------------------------------------------------------------- filtering

  function Filter<T>(s: seq<T>, keep: T -> bool): seq<T> {
    if s == [] then [] else (if keep(s[0]) then [s[0]] else []) + Filter(s[1..], keep)
  }

  lemma {:induction false} FilterMembers<T(!new)>(s: seq<T>, keep: T -> bool)
    ensures forall x :: x in Filter(s, keep) <==> x in s && keep(x)
  {
    if s != [] {
      FilterMembers(s[1..], keep);
    }
  }

  lemma {:induction false} FilterConcat<T>(a: seq<T>, b: seq<T>, keep: T -> bool)
    ensures Filter(a + b, keep) == Filter(a, keep) + Filter(b, keep)
  {
    if a == [] {
      assert a + b == b;
    } else {
      assert (a + b)[1..] == a[1..] + b;
      FilterConcat(a[1..], b, keep);
      var head := if keep(a[0]) then [a[0]] else [];
      assert head + (Filter(a[1..], keep) + Filter(b, keep)) == (head + Filter(a[1..], keep)) + Filter(b, keep);
    }
  }

  /** Filtering twice is filtering once by any predicate that agrees on the elements. */
  lemma {:induction false} FilterTwice<T>(s: seq<T>, first: T -> bool, second: T -> bool, both: T -> bool)
    requires forall i :: 0 <= i < |s| ==> (both(s[i]) <==> first(s[i]) && second(s[i]))
    ensures Filter(Filter(s, first), second) == Filter(s, both)
  {
    if s != [] {
      FilterTwice(s[1..], first, second, both);
      var head := if first(s[0]) then [s[0]] else [];
      FilterConcat(head, Filter(s[1..], first), second);
    }
  }

  // ---------------------------------------------------------------- sorting and prefixes

  /** Inserting at or after position m leaves the first m elements alone. */
  lemma {:induction false} InsertByKeepsPrefix<T>(s: seq<T>, x: T, rank: T -> int, m: nat)
    requires m <= |s| && forall i :: 0 <= i < m ==> rank(s[i]) <= rank(x)
    ensures |InsertBy(s, x, rank)| == |s| + 1 && InsertBy(s, x, rank)[..m] == s[..m]
  {
    if s != [] && rank(s[0]) <= rank(x) {
      InsertByKeepsPrefix(s[1..], x, rank, if m == 0 then 0 else m - 1);
    }
  }

  lemma {:induction false} SortByAppendKeepsPrefix<T(!new)>(a: seq<T>, b: seq<T>, rank: T -> int, m: nat)
    requires m <= |SortBy(a, rank)|
    requires forall i, y :: 0 <= i < m && y in b ==> rank(SortBy(a, rank)[i]) <= rank(y)
    ensures |SortBy(a + b, rank)| == |SortBy(a, rank)| + |b|
    ensures SortBy(a + b, rank)[..m] == SortBy(a, rank)[..m]
    decreases |b|
  {
    if b == [] {
      assert a + b == a;
    } else {
      var y, front := b[|b| - 1], b[..|b| - 1];
      assert (a + b)[..|a + b| - 1] == a + front;
      SortByAppendKeepsPrefix(a, front, rank, m);
      var s := SortBy(a + front, rank);
      forall i | 0 <= i < m ensures rank(s[i]) <= rank(y) {
        assert s[..m][i] == SortBy(a, rank)[..m][i];
      }
      InsertByKeepsPrefix(s, y, rank, m);
    }
  }

  lemma {:induction false} InsertByAtEnd<T>(s: seq<T>, x: T, rank: T -> int)
    requires forall i :: 0 <= i < |s| ==> rank(s[i]) <= rank(x)
    ensures InsertBy(s, x, rank) == s + [x]
  {
    if s != [] {
      InsertByAtEnd(s[1..], x, rank);
    }
  }

  lemma {:induction false} SortByOfRanked<T(!new)>(s: seq<T>, rank: T -> int)
    requires Ranked(s, rank)
    ensures SortBy(s, rank) == s
  {
    if s != [] {
      var front, x := s[..|s| - 1], s[|s| - 1];
      SortByOfRanked(front, rank);
      InsertByAtEnd(front, x, rank);
      assert s == front + [x];
    }
  }

  lemma SortByKeepsMember<T(!new)>(s: seq<T>, rank: T -> int, x: T)
    requires x in s
    ensures x in SortBy(s, rank)
  {
    SortByRanks(s, rank);
    assert x in multiset(s);
    assert x in multiset(SortBy(s, rank));
  }

  /** Filtering commutes with stable sorting. */
  lemma {:induction false} FilterInsertBy<T(!new)>(s: seq<T>, x: T, rank: T -> int, keep: T -> bool)
    requires Ranked(s, rank)
    ensures Filter(InsertBy(s, x, rank), keep)
         == if keep(x) then InsertBy(Filter(s, keep), x, rank) else Filter(s, keep)
  {
    if s != [] {
      if rank(x) < rank(s[0]) {
        FilterMembers(s, keep);
        var kept := Filter(s, keep);
        if kept != [] {
          assert kept[0] in s;
          assert rank(s[0]) <= rank(kept[0]);
        }
        assert ([x] + s)[1..] == s;
      } else {
        FilterInsertBy(s[1..], x, rank, keep);
        assert ([s[0]] + InsertBy(s[1..], x, rank))[1..] == InsertBy(s[1..], x, rank);
        assert keep(s[0]) ==> Filter(s, keep)[1..] == Filter(s[1..], keep);
        assert !keep(s[0]) ==> Filter(s, keep) == Filter(s[1..], keep);
      }
    }
  }

  lemma {:induction false} FilterSortBy<T(!new)>(s: seq<T>, rank: T -> int, keep: T -> bool)
    ensures Filter(SortBy(s, rank), keep) == SortBy(Filter(s, keep), rank)
  {
    if s != [] {
      var front, x := s[..|s| - 1], s[|s| - 1];
      assert s == front + [x];
      SortByRanks(front, rank);
      FilterInsertBy(SortBy(front, rank), x, rank, keep);
      FilterSortBy(front, rank, keep);
      FilterConcat(front, [x], keep);
      var kept := Filter(front, keep);
      assert keep(x) ==> Filter(s, keep) == kept + [x] && (kept + [x])[..|kept|] == kept;
      assert !keep(x) ==> Filter(s, keep) == kept;
    }
  }
}
