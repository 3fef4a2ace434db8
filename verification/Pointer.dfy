/**
  JSON Pointers as internal/hooks/settingsoverride.go reads them, against the escaping of section
  3 of RFC 6901. A string is its bytes.
 */
module Pointer {
  import opened Basics
  import opened KeyCodec

  // ---------------------------------------------------------------- tokens

  /** strings.ReplaceAll(s, "~b", "c") */
  function ReplacePair(s: string, b: char, c: char): string {
    if s == "" then ""
    else if |s| >= 2 && s[0] == '~' && s[1] == b then [c] + ReplacePair(s[2..], b, c)
    else [s[0]] + ReplacePair(s[1..], b, c)
  }

  /** The source's two passes: "~1" first, "~0" second. */
  function Unescape(s: string): string {
    ReplacePair(ReplacePair(s, '1', '/'), '0', '~')
  }

  /** The reference: one pass, left to right. */
  function Decode(s: string): string {
    if s == "" then ""
    else if |s| >= 2 && s[0] == '~' && s[1] == '1' then "/" + Decode(s[2..])
    else if |s| >= 2 && s[0] == '~' && s[1] == '0' then "~" + Decode(s[2..])
    else [s[0]] + Decode(s[1..])
  }

  function EscapeChar(c: char): string {
    if c == '~' then "~0" else if c == '/' then "~1" else [c]
  }

  function Escape(t: string): string {
    if t == "" then "" else EscapeChar(t[0]) + Escape(t[1..])
  }

  /** RFC 6901's grammar for "~": it stands only before "0" or "1". */
  predicate WellEscaped(s: string) {
    forall i :: 0 <= i < |s| && s[i] == '~' ==> i + 1 < |s| && (s[i + 1] == '0' || s[i + 1] == '1')
  }

  lemma ReplaceHead(x: char, s: string, b: char, c: char)
    requires x != '~' || s == "" || s[0] != b
    ensures ReplacePair([x] + s, b, c) == [x] + ReplacePair(s, b, c)
  {
    assert ([x] + s)[1..] == s;
  }

  lemma ReplaceHit(s: string, b: char, c: char)
    ensures ReplacePair(['~', b] + s, b, c) == [c] + ReplacePair(s, b, c)
  {
    assert (['~', b] + s)[2..] == s;
  }

  /** The two passes in this order are the one-pass decoding, malformed escapes included. */
  lemma {:induction false} UnescapeDecodes(s: string)
    ensures Unescape(s) == Decode(s)
    decreases |s|
  {
    if s != "" {
      if |s| >= 2 && s[0] == '~' && s[1] == '1' {
        ReplaceHead('/', ReplacePair(s[2..], '1', '/'), '0', '~');
        UnescapeDecodes(s[2..]);
      } else if |s| >= 2 && s[0] == '~' && s[1] == '0' {
        var rest := ReplacePair(s[2..], '1', '/');
        assert s[1..] == ['0'] + s[2..];
        ReplaceHead('0', s[2..], '1', '/');
        assert ReplacePair(s, '1', '/') == ['~', '0'] + rest;
        ReplaceHit(rest, '0', '~');
        UnescapeDecodes(s[2..]);
      } else {
        var rest := ReplacePair(s[1..], '1', '/');
        assert s[0] != '~' || rest == "" || rest[0] != '0';
        ReplaceHead(s[0], rest, '0', '~');
        UnescapeDecodes(s[1..]);
      }
    }
  }

  lemma {:induction false} DecodeEscape(t: string)
    ensures Decode(Escape(t)) == t && '/' !in Escape(t) && WellEscaped(Escape(t))
  {
    if t != "" {
      DecodeEscape(t[1..]);
      var e, rest := EscapeChar(t[0]), Escape(t[1..]);
      assert (e + rest)[|e|..] == rest;
      assert t == [t[0]] + t[1..];
      EscapedAfter(e, rest);
    }
  }

  lemma EscapedAfter(e: string, rest: string)
    requires WellEscaped(e)
    ensures WellEscaped(e + rest) <==> WellEscaped(rest)
  {
    var s := e + rest;
    if WellEscaped(s) {
      forall i | 0 <= i < |rest| && rest[i] == '~'
        ensures i + 1 < |rest| && (rest[i + 1] == '0' || rest[i + 1] == '1')
      {
        assert s[|e| + i] == '~' && (i + 1 < |rest| ==> s[|e| + i + 1] == rest[i + 1]);
      }
    }
    if WellEscaped(rest) {
      forall i | 0 <= i < |s| && s[i] == '~' ensures i + 1 < |s| && (s[i + 1] == '0' || s[i + 1] == '1') {
        if i < |e| {
          assert e[i] == '~' && s[i + 1] == e[i + 1];
        } else {
          assert rest[i - |e|] == '~' && s[i + 1] == rest[i - |e| + 1];
        }
      }
    }
  }

  /** A token's text is recovered by escaping exactly when it is well escaped. */
  lemma {:induction false} EscapeDecode(s: string)
    requires '/' !in s
    ensures Escape(Decode(s)) == s <==> WellEscaped(s)
    decreases |s|
  {
    if WellEscaped(s) {
      EscapeDecodeGood(s);
    } else {
      DecodeEscape(Decode(s));
    }
  }

  lemma {:induction false} EscapeDecodeGood(s: string)
    requires '/' !in s && WellEscaped(s)
    ensures Escape(Decode(s)) == s
    decreases |s|
  {
    if s != "" {
      var n := if s[0] == '~' then 2 else 1;
      assert s == s[..n] + s[n..];
      EscapedAfter(s[..n], s[n..]);
      EscapeDecodeGood(s[n..]);
      var c := if n == 1 then s[0] else if s[1] == '1' then '/' else '~';
      assert Decode(s) == [c] + Decode(s[n..]);
      assert ([c] + Decode(s[n..]))[1..] == Decode(s[n..]);
      assert EscapeChar(c) == s[..n];
    }
  }

  // ---------------------------------------------------------------- pointers

  /** strings.Split(s, "/") */
  function Split(s: string): (parts: seq<string>)
    ensures |parts| >= 1
  {
    if s == "" then [""]
    else
      var rest := Split(s[1..]);
      if s[0] == '/' then [""] + rest else [[s[0]] + rest[0]] + rest[1..]
  }

  function DecodeAll(parts: seq<string>): (tokens: seq<string>)
    ensures |tokens| == |parts|
  {
    if parts == [] then [] else [Decode(parts[0])] + DecodeAll(parts[1..])
  }

  /** The tokens of a pointer; None for the empty string and for one without a leading slash. */
  function Tokens(pointer: string): (r: Option<seq<string>>)
    ensures r.Some? ==> r.value != []
  {
    if pointer == "" || pointer[0] != '/' then None else Some(DecodeAll(Split(pointer[1..])))
  }

  /** parsePointer, with its loop over the parts. */
  method ParsePointer(pointer: string) returns (r: Option<seq<string>>)
    ensures r == Tokens(pointer)
  {
    if pointer == "" || pointer[0] != '/' {
      return None;
    }
    var parts := Split(pointer[1..]);
    var out: seq<string> := [];
    var i := 0;
    while i < |parts|
      invariant 0 <= i <= |parts| && out + DecodeAll(parts[i..]) == DecodeAll(parts)
    {
      assert parts[i..][1..] == parts[i + 1..];
      UnescapeDecodes(parts[i]);
      var p := ReplacePair(parts[i], '1', '/');
      out := out + [ReplacePair(p, '0', '~')];
      i := i + 1;
    }
    assert parts[i..] == [] && out + [] == out;
    return Some(out);
  }

  /** The pointer that section 3 of RFC 6901 writes for these tokens. */
  function Written(tokens: seq<string>): string {
    if tokens == [] then "" else "/" + Escape(tokens[0]) + Written(tokens[1..])
  }

  lemma {:induction false} SplitFirst(t: string, rest: string)
    requires '/' !in t && (rest != "" ==> rest[0] == '/')
    ensures Split(t + rest) == [t] + if rest == "" then [] else Split(rest[1..])
  {
    if t == "" {
      assert t + rest == rest;
    } else {
      assert (t + rest)[1..] == t[1..] + rest;
      SplitFirst(t[1..], rest);
      assert t == [t[0]] + t[1..];
      assert Split(t + rest)[0] == t;
    }
  }

  /** The parts of what follows the first part. */
  function Later(tail: string): seq<string> {
    if tail == "" then [] else Split(tail[1..])
  }

  lemma TokensOf(e: string, tail: string)
    requires '/' !in e && (tail != "" ==> tail[0] == '/')
    ensures Tokens("/" + e + tail) == Some([Decode(e)] + DecodeAll(Later(tail)))
  {
    var s := "/" + e + tail;
    assert s[1..] == e + tail;
    SplitFirst(e, tail);
    assert Split(s[1..]) == [e] + Later(tail);
    DecodeFirst(e, Later(tail));
  }

  /** Writing tokens as section 3 of RFC 6901 says and parsing them gives them back. */
  lemma {:induction false} PointerRoundTrip(tokens: seq<string>)
    requires tokens != []
    ensures Tokens(Written(tokens)) == Some(tokens)
  {
    DecodeEscape(tokens[0]);
    TokensOf(Escape(tokens[0]), Written(tokens[1..]));
    assert tokens == [tokens[0]] + tokens[1..];
    if |tokens| > 1 {
      PointerRoundTrip(tokens[1..]);
    }
  }

  lemma DecodeFirst(t: string, rest: seq<string>)
    ensures DecodeAll([t] + rest) == [Decode(t)] + DecodeAll(rest)
  {
    assert ([t] + rest)[1..] == rest;
  }

  function JoinAll(parts: seq<string>): string {
    if parts == [] then "" else "/" + parts[0] + JoinAll(parts[1..])
  }

  lemma {:induction false} JoinSplit(s: string)
    ensures JoinAll(Split(s)) == "/" + s
    ensures forall i :: 0 <= i < |Split(s)| ==> '/' !in Split(s)[i]
  {
    if s != "" {
      JoinSplit(s[1..]);
      var rest := Split(s[1..]);
      if s[0] == '/' {
        assert ([""] + rest)[1..] == rest;
      } else {
        assert ([[s[0]] + rest[0]] + rest[1..])[1..] == rest[1..];
        assert ("/" + s[1..])[1..] == s[1..];
        assert ("/" + rest[0] + JoinAll(rest[1..]))[1..] == rest[0] + JoinAll(rest[1..]);
        assert s == [s[0]] + (rest[0] + JoinAll(rest[1..]));
      }
    }
  }

  lemma {:induction false} WrittenParts(parts: seq<string>)
    requires WellEscaped(JoinAll(parts)) && forall i :: 0 <= i < |parts| ==> '/' !in parts[i]
    ensures Written(DecodeAll(parts)) == JoinAll(parts)
  {
    if parts != [] {
      var p, tail := parts[0], JoinAll(parts[1..]);
      PartEscaped(p, tail);
      EscapeDecode(p);
      WrittenParts(parts[1..]);
    }
  }

  lemma PartEscaped(p: string, tail: string)
    requires WellEscaped("/" + p + tail) && (tail != "" ==> tail[0] == '/')
    ensures WellEscaped(p) && WellEscaped(tail)
  {
    var s := "/" + p + tail;
    forall i | 0 <= i < |p| && p[i] == '~' ensures i + 1 < |p| && (p[i + 1] == '0' || p[i + 1] == '1') {
      assert s[i + 1] == '~';
      assert s[i + 2] == (p + tail)[i + 1];
    }
    EscapedAfter(p, tail);
    EscapedAfter("/", p + tail);
    assert s == "/" + (p + tail);
  }

  lemma {:induction false} WrittenEscaped(tokens: seq<string>)
    ensures WellEscaped(Written(tokens))
  {
    if tokens != [] {
      var e, tail := Escape(tokens[0]), Written(tokens[1..]);
      WrittenEscaped(tokens[1..]);
      DecodeEscape(tokens[0]);
      EscapedAfter(e, tail);
      EscapedAfter("/", e + tail);
      assert Written(tokens) == "/" + (e + tail);
    }
  }

  /** Reading and writing again gives the pointer back exactly when it obeys the escape grammar. */
  lemma PointerRewrite(pointer: string)
    requires Tokens(pointer).Some?
    ensures Written(Tokens(pointer).value) == pointer <==> WellEscaped(pointer)
  {
    var parts := Split(pointer[1..]);
    JoinSplit(pointer[1..]);
    assert pointer == "/" + pointer[1..];
    if WellEscaped(pointer) {
      WrittenParts(parts);
    } else {
      WrittenEscaped(DecodeAll(parts));
    }
  }

  lemma {:induction false} WrittenConcat(a: seq<string>, b: seq<string>)
    ensures Written(a + b) == Written(a) + Written(b)
  {
    if a == [] {
      assert a + b == b;
    } else {
      assert (a + b)[1..] == a[1..] + b;
      WrittenConcat(a[1..], b);
    }
  }

  lemma {:induction false} PrefixLess(p: string, rest: string)
    requires rest != ""
    ensures Less(p, p + rest)
  {
    if p == "" {
      assert p + rest == rest;
    } else {
      assert (p + rest)[1..] == p[1..] + rest;
      PrefixLess(p[1..], rest);
    }
  }

  /** Byte order puts a pointer before every pointer whose tokens extend its own. */
  lemma ExtensionSortsLater(p: string, q: string)
    requires Tokens(p).Some? && Tokens(q).Some? && WellEscaped(p) && WellEscaped(q)
    requires Tokens(p).value < Tokens(q).value
    ensures Less(p, q)
  {
    var a, c := Tokens(p).value, Tokens(q).value;
    var b := c[|a|..];
    assert c == a + b;
    PointerRewrite(p);
    PointerRewrite(q);
    WrittenConcat(a, b);
    PrefixLess(p, Written(b));
  }
}
