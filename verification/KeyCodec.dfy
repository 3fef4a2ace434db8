/**
  The byte formats of internal/runstore: the "%019d-<id>" index key, whose byte order must be
  chronological, the cursor's seek key, and the "<status> <finished> <started>" summary value.
 */
module KeyCodec {
  import opened Basics

  const INT64_MIN := -0x8000_0000_0000_0000
  const INT64_MAX := 0x7fff_ffff_ffff_ffff

  predicate Int64(n: int) {
    INT64_MIN <= n <= INT64_MAX
  }

  // ---------------------------------------------------------------- byte order

  /** bytes.Compare(a, b) < 0 */
  predicate Less(a: string, b: string) {
    b != [] && (a == [] || a[0] < b[0] || (a[0] == b[0] && Less(a[1..], b[1..])))
  }

  lemma {:induction false} LessIrreflexive(a: string)
    ensures !Less(a, a)
  {
    if a != [] {
      LessIrreflexive(a[1..]);
    }
  }

  lemma {:induction false} LessTransitive(a: string, b: string, c: string)
    requires Less(a, b) && Less(b, c)
    ensures Less(a, c)
  {
    if a != [] && a[0] == b[0] && b[0] == c[0] {
      LessTransitive(a[1..], b[1..], c[1..]);
    }
  }

  lemma {:induction false} LessTotal(a: string, b: string)
    ensures Less(a, b) || Less(b, a) || a == b
  {
    if a != [] && b != [] && a[0] == b[0] {
      LessTotal(a[1..], b[1..]);
      assert a == [a[0]] + a[1..] && b == [b[0]] + b[1..];
    }
  }

  /** Prefixes of equal length decide first; the rests decide only between equal prefixes. */
  lemma {:induction false} LessConcat(p: string, q: string, a: string, b: string)
    requires |p| == |q|
    ensures Less(p + a, q + b) <==> Less(p, q) || (p == q && Less(a, b))
  {
    if p == [] {
      assert p + a == a && q + b == b;
    } else {
      assert (p + a)[1..] == p[1..] + a && (q + b)[1..] == q[1..] + b;
      LessConcat(p[1..], q[1..], a, b);
      assert p == [p[0]] + p[1..] && q == [q[0]] + q[1..];
    }
  }

  // ---------------------------------------------------------------- decimal digits

  function Pow10(w: nat): nat {
    if w == 0 then 1 else 10 * Pow10(w - 1)
  }

  function Digit(d: nat): char
    requires d < 10
  {
    '0' + d as char
  }

  /** The last w decimal digits of n, zero-padded. */
  function Digits(n: nat, w: nat): string
    decreases w
  {
    if w == 0 then [] else Digits(n / 10, w - 1) + [Digit(n % 10)]
  }

  predicate AllDigits(s: string) {
    forall i :: 0 <= i < |s| ==> '0' <= s[i] <= '9'
  }

  function Value(s: string): nat
    requires AllDigits(s)
  {
    if s == [] then 0 else 10 * Value(s[..|s| - 1]) + (s[|s| - 1] as int - '0' as int)
  }

  lemma {:induction false} DigitsShape(n: nat, w: nat)
    ensures |Digits(n, w)| == w && AllDigits(Digits(n, w))
    decreases w
  {
    if w > 0 {
      DigitsShape(n / 10, w - 1);
    }
  }

  lemma {:induction false} ValueOfDigits(n: nat, w: nat)
    requires n < Pow10(w)
    ensures AllDigits(Digits(n, w)) && Value(Digits(n, w)) == n
    decreases w
  {
    DigitsShape(n, w);
    if w > 0 {
      DigitsShape(n / 10, w - 1);
      ValueOfDigits(n / 10, w - 1);
      assert Digits(n, w)[..w - 1] == Digits(n / 10, w - 1);
    }
  }

  lemma LastDigitDecides(a: nat, b: nat)
    ensures a < b <==> a / 10 < b / 10 || (a / 10 == b / 10 && a % 10 < b % 10)
    ensures a == b <==> a / 10 == b / 10 && a % 10 == b % 10
  {
  }

  lemma DigitOrder(c: nat, d: nat)
    requires c < 10 && d < 10
    ensures Less([Digit(c)], [Digit(d)]) <==> c < d
    ensures Digit(c) == Digit(d) <==> c == d
  {
  }

  /** Zero-padded to the same width, byte order is numeric order. */
  lemma {:induction false} DigitsOrder(a: nat, b: nat, w: nat)
    requires a < Pow10(w) && b < Pow10(w)
    ensures Less(Digits(a, w), Digits(b, w)) <==> a < b
    ensures Digits(a, w) == Digits(b, w) <==> a == b
    decreases w
  {
    if w > 0 {
      var p, q, x, y := Digits(a / 10, w - 1), Digits(b / 10, w - 1), [Digit(a % 10)], [Digit(b % 10)];
      DigitsOrder(a / 10, b / 10, w - 1);
      DigitsShape(a / 10, w - 1);
      DigitsShape(b / 10, w - 1);
      LessConcat(p, q, x, y);
      assert p + x == q + y <==> p == q && x == y by {
        assert (p + x)[..w - 1] == p && (q + y)[..w - 1] == q && (p + x)[w - 1..] == x && (q + y)[w - 1..] == y;
      }
      DigitOrder(a % 10, b % 10);
      LastDigitDecides(a, b);
    }
  }

  lemma Int64Fits(n: int)
    requires 0 <= n <= INT64_MAX + 1
    ensures n < Pow10(19)
  {
    assert Pow10(4) == 10_000;
    assert Pow10(8) == 10_000 * Pow10(4);
    assert Pow10(12) == 10_000 * Pow10(8);
    assert Pow10(16) == 10_000 * Pow10(12);
    assert Pow10(19) == 1000 * Pow10(16);
  }

  // ---------------------------------------------------------------- integers as text

  /** The number of decimal digits, at least one. */
  function Width(n: nat): nat {
    if n < 10 then 1 else 1 + Width(n / 10)
  }

  lemma {:induction false} WidthFits(n: nat)
    ensures Width(n) >= 1 && n < Pow10(Width(n))
  {
    if n >= 10 {
      WidthFits(n / 10);
    }
  }

  /** %d */
  function Format(n: int): string {
    if n < 0 then ['-'] + Digits(-n, Width(-n)) else Digits(n, Width(n))
  }

  /** %019d: padded with zeros to 19 columns, the sign included. */
  function Format19(n: int): string {
    if n < 0 then ['-'] + Digits(-n, if -n < Pow10(18) then 18 else Width(-n))
    else Digits(n, if n < Pow10(19) then 19 else Width(n))
  }

  /** strconv.ParseInt(s, 10, 64): an optional sign, then digits, within int64. */
  function ParseInt(s: string): Option<int> {
    var body := if s != [] && (s[0] == '-' || s[0] == '+') then s[1..] else s;
    if body == [] || !AllDigits(body) then None
    else
      var n := if s[0] == '-' then -(Value(body) as int) else Value(body);
      if Int64(n) then Some(n) else None
  }

  lemma ParseDigits(n: nat, w: nat)
    requires w >= 1 && n < Pow10(w) && Int64(n)
    ensures ParseInt(Digits(n, w)) == Some(n)
  {
    var s := Digits(n, w);
    DigitsShape(n, w);
    ValueOfDigits(n, w);
    assert '0' <= s[0];
  }

  lemma ParseNegative(n: int, w: nat)
    requires w >= 1 && 0 <= n < Pow10(w) && Int64(-n)
    ensures ParseInt(['-'] + Digits(n, w)) == Some(-n)
  {
    var s := ['-'] + Digits(n, w);
    DigitsShape(n, w);
    ValueOfDigits(n, w);
    assert s[1..] == Digits(n, w);
  }

  lemma ParseFormat(n: int)
    requires Int64(n)
    ensures ParseInt(Format(n)) == Some(n)
  {
    if n < 0 {
      WidthFits(-n);
      ParseNegative(-n, Width(-n));
    } else {
      WidthFits(n);
      ParseDigits(n, Width(n));
    }
  }

  // ---------------------------------------------------------------- index keys

  /** Splits at the first occurrence of c; None when there is none. */
  function Cut(s: string, c: char): Option<(string, string)> {
    if s == [] then None
    else if s[0] == c then Some(([], s[1..]))
    else
      var rest := Cut(s[1..], c);
      if rest.None? then None else Some(([s[0]] + rest.value.0, rest.value.1))
  }

  lemma {:induction false} CutAt(p: string, c: char, q: string)
    requires c !in p
    ensures Cut(p + [c] + q, c) == Some((p, q))
  {
    var s := p + [c] + q;
    if p == [] {
      assert s[1..] == q;
    } else {
      assert s[0] == p[0] && p[0] in p;
      assert s[1..] == p[1..] + [c] + q;
      CutAt(p[1..], c, q);
      assert [p[0]] + p[1..] == p;
    }
  }

  lemma {:induction false} CutNone(s: string, c: char)
    requires c !in s
    ensures Cut(s, c) == None
  {
    if s != [] {
      CutNone(s[1..], c);
    }
  }

  lemma {:induction false} CutHeadFree(s: string, c: char)
    ensures Cut(s, c).Some? ==> c !in Cut(s, c).value.0
  {
    if s != [] && s[0] != c {
      CutHeadFree(s[1..], c);
    }
  }

  function TimeKey(started: int, id: string): string {
    Format19(started) + ['-'] + id
  }

  function SplitKey(k: string): Option<(int, string)> {
    var parts := Cut(k, '-');
    if parts.None? then None
    else
      var nanos := ParseInt(parts.value.0);
      if nanos.None? then None else Some((nanos.value, parts.value.1))
  }

  /** splitKey inverts timeKey exactly for times from the epoch on. */
  lemma KeyRoundTrip(started: int, id: string)
    requires Int64(started)
    ensures SplitKey(TimeKey(started, id)) == Some((started, id)) <==> started >= 0
  {
    if started >= 0 {
      Int64Fits(started);
      DigitsShape(started, 19);
      CutAt(Digits(started, 19), '-', id);
      ParseDigits(started, 19);
    } else {
      assert TimeKey(started, id)[0] == '-';
    }
  }

  /** Byte order of index keys is order by time, then by run id. */
  lemma KeyOrder(t: int, a: string, u: int, b: string)
    requires 0 <= t <= INT64_MAX && 0 <= u <= INT64_MAX
    ensures Less(TimeKey(t, a), TimeKey(u, b)) <==> t < u || (t == u && Less(a, b))
  {
    Int64Fits(t);
    Int64Fits(u);
    DigitsOrder(t, u, 19);
    DigitsShape(t, 19);
    DigitsShape(u, 19);
    KeyShape(t, a);
    KeyShape(u, b);
    LessConcat(Digits(t, 19), Digits(u, 19), ['-'] + a, ['-'] + b);
    LessConcat(['-'], ['-'], a, b);
    LessIrreflexive(['-']);
  }

  lemma SeekFromEpoch(t: nat, id: string, before: nat)
    requires t <= INT64_MAX && before <= INT64_MAX
    ensures Less(Digits(t, 19) + (['-'] + id), Digits(before, 19)) <==> t < before
  {
    Int64Fits(t);
    Int64Fits(before);
    DigitsShape(t, 19);
    DigitsShape(before, 19);
    DigitsOrder(t, before, 19);
    LessConcat(Digits(t, 19), Digits(before, 19), ['-'] + id, []);
    assert Digits(before, 19) + [] == Digits(before, 19);
  }

  lemma FirstByteDecides(a: string, b: string)
    requires a != [] && b != [] && b[0] < a[0]
    ensures !Less(a, b)
  {
  }

  lemma KeyShape(t: int, id: string)
    requires 0 <= t <= INT64_MAX
    ensures TimeKey(t, id) == Digits(t, 19) + (['-'] + id) && Format19(t) == Digits(t, 19)
    ensures '0' <= TimeKey(t, id)[0]
  {
    Int64Fits(t);
    DigitsShape(t, 19);
    assert TimeKey(t, id) == Digits(t, 19) + (['-'] + id);
  }

  /** The cursor's seek key separates strictly older keys from the rest, for every instant. */
  lemma SeekSeparates(t: int, id: string, before: int)
    requires 0 <= t <= INT64_MAX && Int64(before)
    ensures Less(TimeKey(t, id), Format19(before)) <==> t < before
  {
    KeyShape(t, id);
    if before >= 0 {
      KeyShape(before, []);
      SeekFromEpoch(t, id, before);
    } else {
      FirstByteDecides(TimeKey(t, id), Format19(before));
    }
  }

  // ---------------------------------------------------------------- summary values

  /** `startedAt` is None for a run that never started (Go's zero time). */
  datatype Summary = Summary(status: string, finished: int, startedAt: Option<int>)

  function SummaryValue(s: Summary): string {
    s.status + [' '] + (Format(s.finished) + [' '] + Format(if s.startedAt.Some? then s.startedAt.value else 0))
  }

  function SplitSummary(v: string): Option<Summary> {
    var parts := Cut(v, ' ');
    if parts.None? then None
    else
      var times := Cut(parts.value.1, ' ');
      if times.None? then
        var finished := ParseInt(parts.value.1);
        if finished.None? then None else Some(Summary(parts.value.0, finished.value, None))
      else
        var finished, started := ParseInt(times.value.0), ParseInt(times.value.1);
        if finished.None? || started.None? then None
        else Some(Summary(parts.value.0, finished.value, if started.value == 0 then None else started))
  }

  lemma FormatHasNoSpace(n: int)
    ensures ' ' !in Format(n)
  {
    var m: nat := if n < 0 then -n else n;
    DigitsShape(m, Width(m));
  }

  /** A summary reads back exactly when its status has no space and its start is not the epoch. */
  lemma SummaryRoundTrip(s: Summary)
    requires Int64(s.finished) && (s.startedAt.Some? ==> Int64(s.startedAt.value))
    ensures SplitSummary(SummaryValue(s)) == Some(s) <==> ' ' !in s.status && s.startedAt != Some(0)
  {
    var start := if s.startedAt.Some? then s.startedAt.value else 0;
    var rest := Format(s.finished) + [' '] + Format(start);
    if ' ' in s.status {
      CutHeadFree(SummaryValue(s), ' ');
    } else {
      CutAt(s.status, ' ', rest);
      FormatHasNoSpace(s.finished);
      CutAt(Format(s.finished), ' ', Format(start));
      ParseFormat(s.finished);
      ParseFormat(start);
    }
  }

  /** A bytime value is a hook id, which is never mistaken for a summary. */
  lemma HookIsNoSummary(hook: string)
    requires ' ' !in hook
    ensures SplitSummary(hook) == None
  {
    CutNone(hook, ' ');
  }
}
