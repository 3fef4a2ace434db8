/**
  internal/jsonc: stripping line and block comments from JSONC. A text is a sequence of bytes,
  each written as the character of the same code.

  The reference meaning of a text is its division into pieces (bytes of code, string literals,
  comments); the loop of NewReader is shown to keep exactly the pieces that are not comments.
 */
module Jsonc {

  /** closed: the piece's terminator was found before the end of the text. */
  datatype Piece =
    | Code(c: char)
    | Literal(body: string, closed: bool)
    | LineComment(text: string, closed: bool)
    | BlockComment(text: string, closed: bool)

  function Opening(p: Piece): string {
    match p
    case Code(c) => [c]
    case Literal(_, _) => "\""
    case LineComment(_, _) => "//"
    case BlockComment(_, _) => "/*"
  }

  function Inside(p: Piece): string {
    match p
    case Code(_) => ""
    case Literal(body, _) => body
    case LineComment(text, _) => text
    case BlockComment(text, _) => text
  }

  function Closing(p: Piece): string {
    match p
    case Code(_) => ""
    case Literal(_, closed) => if closed then "\"" else ""
    case LineComment(_, closed) => if closed then "\n" else ""
    case BlockComment(_, closed) => if closed then "*/" else ""
  }

  function Text(p: Piece): string {
    Opening(p) + Inside(p) + Closing(p)
  }

  /** What stripping leaves of a piece: the newline of a line comment stays. */
  function Kept(p: Piece): string {
    match p
    case Code(c) => [c]
    case Literal(_, _) => Text(p)
    case LineComment(_, _) => Closing(p)
    case BlockComment(_, _) => ""
  }

  function TextAll(ps: seq<Piece>): string {
    if ps == [] then "" else Text(ps[0]) + TextAll(ps[1..])
  }

  function KeptAll(ps: seq<Piece>): string {
    if ps == [] then "" else Kept(ps[0]) + KeptAll(ps[1..])
  }

  /** No unescaped quote; a final lone backslash only if nothing follows. */
  predicate LiteralBody(body: string, closed: bool) {
    if body == "" then true
    else if body[0] == '\\' then if |body| == 1 then !closed else LiteralBody(body[2..], closed)
    else body[0] != '"' && LiteralBody(body[1..], closed)
  }

  predicate Good(p: Piece) {
    match p
    case Code(c) => c != '"'
    case Literal(body, closed) => LiteralBody(body, closed)
    case LineComment(text, _) => '\n' !in text
    case BlockComment(text, _) => forall i :: 0 <= i < |text| - 1 ==> !(text[i] == '*' && text[i + 1] == '/')
  }

  predicate IsOpen(p: Piece) {
    !p.Code? && !p.closed
  }

  predicate Opener(c: char) {
    c == '/' || c == '*'
  }

  /** p may stand directly before the text `rest`. */
  predicate Meets(p: Piece, rest: string) {
    && (IsOpen(p) ==> rest == "")
    && (p == Code('/') && rest != "" ==> !Opener(rest[0]))
  }

  predicate WellFormed(ps: seq<Piece>) {
    ps != [] ==> Good(ps[0]) && Meets(ps[0], TextAll(ps[1..])) && WellFormed(ps[1..])
  }

  predicate IsComment(p: Piece) {
    p.LineComment? || p.BlockComment?
  }

  // ---------------------------------------------------------------- dividing a text

  predicate Starts(s: string, a: char, b: char) {
    |s| >= 2 && s[0] == a && s[1] == b
  }

  function BodyLength(s: string): (n: nat)
    ensures n <= |s| && LiteralBody(s[..n], n < |s|) && (n < |s| ==> s[n] == '"')
  {
    if s == "" || s[0] == '"' then 0
    else if s[0] == '\\' then
      if |s| == 1 then 1
      else
        var n := BodyLength(s[2..]);
        assert s[..n + 2][2..] == s[2..][..n];
        n + 2
    else
      var n := BodyLength(s[1..]);
      assert s[..n + 1][1..] == s[1..][..n];
      n + 1
  }

  function LineLength(s: string): (n: nat)
    ensures n <= |s| && '\n' !in s[..n] && (n < |s| ==> s[n] == '\n')
  {
    if s == "" || s[0] == '\n' then 0 else LineLength(s[1..]) + 1
  }

  function BlockLength(s: string): (n: nat)
    ensures n <= |s| && (n < |s| ==> Starts(s[n..], '*', '/'))
    ensures forall i :: 0 <= i < n && i + 1 < |s| ==> !(s[i] == '*' && s[i + 1] == '/')
  {
    if s == "" || Starts(s, '*', '/') then 0
    else
      var n := BlockLength(s[1..]);
      assert forall i :: 0 < i <= n && i + 1 < |s| ==> s[i] == s[1..][i - 1] && s[i + 1] == s[1..][i];
      assert s[n + 1..] == s[1..][n..];
      n + 1
  }

  /** p is a first piece of s. */
  predicate Begins(p: Piece, s: string) {
    Good(p) && 0 < |Text(p)| <= |s| && Text(p) == s[..|Text(p)|] && Meets(p, s[|Text(p)|..])
  }

  function FrontLiteral(s: string): (p: Piece)
    requires s != "" && s[0] == '"'
    ensures Begins(p, s)
  {
    var n := BodyLength(s[1..]);
    assert s[..n + 1] == "\"" + s[1..][..n];
    Literal(s[1..][..n], n < |s| - 1)
  }

  function FrontLine(s: string): (p: Piece)
    requires Starts(s, '/', '/')
    ensures Begins(p, s)
  {
    var n := LineLength(s[2..]);
    assert s[..n + 2] == "//" + s[2..][..n];
    LineComment(s[2..][..n], n < |s| - 2)
  }

  function FrontBlock(s: string): (p: Piece)
    requires Starts(s, '/', '*')
    ensures Begins(p, s)
  {
    var n := BlockLength(s[2..]);
    assert s[..n + 2] == "/*" + s[2..][..n];
    assert n < |s| - 2 ==> Starts(s[n + 2..], '*', '/') by {
      assert s[n + 2..] == s[2..][n..];
    }
    BlockComment(s[2..][..n], n < |s| - 2)
  }

  /** The piece a text begins with. */
  function Front(s: string): (p: Piece)
    requires s != ""
    ensures Begins(p, s)
  {
    if s[0] == '"' then FrontLiteral(s)
    else if Starts(s, '/', '/') then FrontLine(s)
    else if Starts(s, '/', '*') then FrontBlock(s)
    else Code(s[0])
  }

  function Pieces(s: string): seq<Piece>
    decreases |s|
  {
    if s == "" then [] else [Front(s)] + Pieces(s[|Text(Front(s))|..])
  }

  /** Every byte string has a well-formed division... */
  lemma {:induction false} PiecesDivide(s: string)
    ensures TextAll(Pieces(s)) == s && WellFormed(Pieces(s))
    decreases |s|
  {
    if s != "" {
      PiecesDivide(s[|Text(Front(s))|..]);
    }
  }

  lemma Associate(a: string, b: string, c: string, d: string)
    ensures a + b + c + d == a + (b + (c + d))
  {
  }

  function After(p: Piece, rest: string): string {
    Inside(p) + (Closing(p) + rest)
  }

  lemma Drop1(a: char, s: string)
    ensures ([a] + s)[1..] == s
  {
  }

  lemma Drop2(a: char, b: char, s: string)
    ensures ([a, b] + s)[2..] == s && Starts([a, b] + s, a, b)
  {
  }

  lemma BodyLengthStep(c: char, rest: string)
    requires c != '"' && c != '\\'
    ensures BodyLength([c] + rest) == 1 + BodyLength(rest)
  {
    assert ([c] + rest)[1..] == rest;
  }

  lemma BodyLengthEscape(c: char, rest: string)
    ensures BodyLength(['\\'] + ([c] + rest)) == 2 + BodyLength(rest)
  {
    assert (['\\'] + ([c] + rest))[2..] == rest;
  }

  lemma {:induction false} BodyLengthOf(body: string, closed: bool, rest: string)
    requires LiteralBody(body, closed) && (if closed then rest != "" && rest[0] == '"' else rest == "")
    ensures BodyLength(body + rest) == |body|
  {
    if body == "" {
      assert body + rest == rest;
    } else if body[0] == '\\' && |body| > 1 {
      assert body + rest == ['\\'] + ([body[1]] + (body[2..] + rest));
      BodyLengthEscape(body[1], body[2..] + rest);
      BodyLengthOf(body[2..], closed, rest);
    } else if body[0] != '\\' {
      assert body + rest == [body[0]] + (body[1..] + rest);
      BodyLengthStep(body[0], body[1..] + rest);
      BodyLengthOf(body[1..], closed, rest);
    } else {
      assert body + rest == ['\\'];
    }
  }

  lemma {:induction false} LineLengthOf(text: string, rest: string)
    requires '\n' !in text && (rest != "" ==> rest[0] == '\n')
    ensures LineLength(text + rest) == |text|
  {
    if text == "" {
      assert text + rest == rest;
    } else {
      assert (text + rest)[1..] == text[1..] + rest;
      LineLengthOf(text[1..], rest);
    }
  }

  lemma {:induction false} BlockLengthOf(text: string, rest: string)
    requires Good(BlockComment(text, true)) && (rest != "" ==> Starts(rest, '*', '/'))
    ensures BlockLength(text + rest) == |text|
  {
    if text == "" {
      assert text + rest == rest;
    } else {
      assert (text + rest)[1..] == text[1..] + rest;
      BlockLengthOf(text[1..], rest);
    }
  }

  /** ...and only one: any well-formed first piece is the one Front finds. */
  lemma FrontOf(p: Piece, rest: string)
    requires Good(p) && Meets(p, rest)
    ensures Front(Text(p) + rest) == p
  {
    Associate(Opening(p), Inside(p), Closing(p), rest);
    var tail := Closing(p) + rest;
    match p {
      case Code(c) =>
        assert Text(p) + rest == [c] + rest;
      case Literal(body, closed) =>
        BodyLengthOf(body, closed, tail);
        Drop1('"', body + tail);
      case LineComment(text, _) =>
        LineLengthOf(text, tail);
        Drop2('/', '/', text + tail);
      case BlockComment(text, _) =>
        BlockLengthOf(text, tail);
        Drop2('/', '*', text + tail);
    }
  }

  lemma {:induction false} DivisionUnique(ps: seq<Piece>)
    requires WellFormed(ps)
    ensures Pieces(TextAll(ps)) == ps
  {
    if ps != [] {
      var rest := TextAll(ps[1..]);
      FrontOf(ps[0], rest);
      assert TextAll(ps)[|Text(ps[0])|..] == rest;
      DivisionUnique(ps[1..]);
    }
  }

  // ---------------------------------------------------------------- the loop

  datatype Mode = Normal | Quoted | Line | Block

  datatype Move = Move(mode: Mode, escape: bool, out: string, used: nat)

  /** One turn of the loop: the next state, what it writes and how far it moves. */
  function Turn(mode: Mode, escape: bool, s: string): (m: Move)
    requires s != ""
    ensures 0 < m.used <= |s|
  {
    match mode
    case Normal =>
      if Starts(s, '/', '/') then Move(Line, escape, "", 2)
      else if Starts(s, '/', '*') then Move(Block, escape, "", 2)
      else Move(if s[0] == '"' then Quoted else Normal, escape, [s[0]], 1)
    case Quoted =>
      if escape then Move(Quoted, false, [s[0]], 1)
      else if s[0] == '\\' then Move(Quoted, true, [s[0]], 1)
      else Move(if s[0] == '"' then Normal else Quoted, false, [s[0]], 1)
    case Line =>
      if s[0] == '\n' then Move(Normal, escape, "\n", 1) else Move(Line, escape, "", 1)
    case Block =>
      if Starts(s, '*', '/') then Move(Normal, escape, "", 2) else Move(Block, escape, "", 1)
  }

  /** What the loop still writes, from each of its states. */
  function Scan(mode: Mode, escape: bool, s: string): string
    decreases |s|
  {
    if s == "" then ""
    else var m := Turn(mode, escape, s); m.out + Scan(m.mode, m.escape, s[m.used..])
  }

  lemma ScanQuoted(escape: bool, c: char, rest: string)
    ensures Scan(Quoted, escape, [c] + rest) ==
      [c] + Scan(if !escape && c == '"' then Normal else Quoted, !escape && c == '\\', rest)
  {
    assert ([c] + rest)[1..] == rest;
  }

  lemma ScanEscape(c: char, rest: string)
    ensures Scan(Quoted, false, ['\\', c] + rest) == ['\\', c] + Scan(Quoted, false, rest)
  {
    assert ['\\', c] + rest == ['\\'] + ([c] + rest);
    ScanQuoted(false, '\\', [c] + rest);
    ScanQuoted(true, c, rest);
  }

  lemma Split(s: string, n: nat, rest: string)
    requires n <= |s|
    ensures s + rest == s[..n] + (s[n..] + rest)
  {
  }

  lemma {:induction false} ScanBody(body: string, closed: bool, rest: string)
    requires LiteralBody(body, closed) && (!closed ==> rest == "")
    ensures Scan(Quoted, false, body + rest) == body + Scan(Quoted, false, rest)
  {
    if body == "" {
      assert body + rest == rest;
    } else if body[0] != '\\' {
      Split(body, 1, rest);
      Split(body, 1, Scan(Quoted, false, rest));
      ScanQuoted(false, body[0], body[1..] + rest);
      ScanBody(body[1..], closed, rest);
    } else if |body| > 1 {
      assert body[..2] == ['\\', body[1]];
      Split(body, 2, rest);
      Split(body, 2, Scan(Quoted, false, rest));
      ScanEscape(body[1], body[2..] + rest);
      ScanBody(body[2..], closed, rest);
    } else {
      ScanQuoted(false, '\\', rest);
    }
  }

  lemma {:induction false} ScanLine(text: string, rest: string)
    requires '\n' !in text
    ensures Scan(Line, false, text + rest) == Scan(Line, false, rest)
  {
    if text == "" {
      assert text + rest == rest;
    } else {
      assert (text + rest)[1..] == text[1..] + rest;
      ScanLine(text[1..], rest);
    }
  }

  lemma {:induction false} ScanBlock(text: string, rest: string)
    requires Good(BlockComment(text, true)) && (rest != "" ==> rest[0] != '/')
    ensures Scan(Block, false, text + rest) == Scan(Block, false, rest)
  {
    if text == "" {
      assert text + rest == rest;
    } else {
      assert (text + rest)[1..] == text[1..] + rest;
      ScanBlock(text[1..], rest);
    }
  }

  function ModeInside(p: Piece): Mode {
    match p
    case Code(_) => Normal
    case Literal(_, _) => Quoted
    case LineComment(_, _) => Line
    case BlockComment(_, _) => Block
  }

  lemma ScanOpening(p: Piece, rest: string)
    requires Good(p) && Meets(p, rest)
    ensures Scan(Normal, false, Text(p) + rest) ==
      (if IsComment(p) then "" else Opening(p)) + Scan(ModeInside(p), false, After(p, rest))
  {
    Associate(Opening(p), Inside(p), Closing(p), rest);
    var s := Text(p) + rest;
    match p {
      case Code(c) =>
        assert After(p, rest) == rest;
        Drop1(c, rest);
      case Literal(_, _) =>
        Drop1('"', After(p, rest));
      case LineComment(_, _) =>
        Drop2('/', '/', After(p, rest));
      case BlockComment(_, _) =>
        Drop2('/', '*', After(p, rest));
    }
  }

  lemma ScanLiteral(p: Piece, rest: string)
    requires p.Literal? && Good(p) && Meets(p, rest)
    ensures Scan(Quoted, false, After(p, rest)) == p.body + (Closing(p) + Scan(Normal, false, rest))
  {
    ScanBody(p.body, p.closed, Closing(p) + rest);
    if p.closed {
      ScanQuoted(false, '"', rest);
    } else {
      assert Closing(p) + rest == "";
    }
  }

  lemma ScanLineComment(p: Piece, rest: string)
    requires p.LineComment? && Good(p) && Meets(p, rest)
    ensures Scan(Line, false, After(p, rest)) == Kept(p) + Scan(Normal, false, rest)
  {
    ScanLine(p.text, Closing(p) + rest);
    assert p.closed ==> (Closing(p) + rest)[1..] == rest;
  }

  lemma ScanBlockComment(p: Piece, rest: string)
    requires p.BlockComment? && Good(p) && Meets(p, rest)
    ensures Scan(Block, false, After(p, rest)) == Kept(p) + Scan(Normal, false, rest)
  {
    ScanBlock(p.text, Closing(p) + rest);
    assert p.closed ==> (Closing(p) + rest)[2..] == rest;
  }

  lemma ScanPiece(p: Piece, rest: string)
    requires Good(p) && Meets(p, rest)
    ensures Scan(Normal, false, Text(p) + rest) == Kept(p) + Scan(Normal, false, rest)
  {
    ScanOpening(p, rest);
    match p {
      case Code(_) =>
        assert After(p, rest) == rest;
      case Literal(body, _) =>
        ScanLiteral(p, rest);
        Associate("\"", body, Closing(p), Scan(Normal, false, rest));
      case LineComment(_, _) => ScanLineComment(p, rest);
      case BlockComment(_, _) => ScanBlockComment(p, rest);
    }
  }

  lemma {:induction false} ScanKeeps(ps: seq<Piece>)
    requires WellFormed(ps)
    ensures Scan(Normal, false, TextAll(ps)) == KeptAll(ps)
  {
    if ps != [] {
      ScanPiece(ps[0], TextAll(ps[1..]));
      ScanKeeps(ps[1..]);
    }
  }

  function Stripped(s: string): string {
    KeptAll(Pieces(s))
  }

  lemma ScanTurn(mode: Mode, escape: bool, input: string, i: nat, out: string)
    requires i < |input|
    ensures var m := Turn(mode, escape, input[i..]);
      out + Scan(mode, escape, input[i..]) == (out + m.out) + Scan(m.mode, m.escape, input[i + m.used..])
  {
    var m := Turn(mode, escape, input[i..]);
    assert input[i..][m.used..] == input[i + m.used..];
  }

  /** NewReader's loop: one index, the state, the escape flag and the output buffer. */
  method Strip(input: string) returns (out: string)
    ensures out == Stripped(input)
  {
    out := "";
    var mode, escape := Normal, false;
    var i := 0;
    while i < |input|
      invariant 0 <= i <= |input|
      invariant out + Scan(mode, escape, input[i..]) == Scan(Normal, false, input)
    {
      ScanTurn(mode, escape, input, i, out);
      var turn := Switch(input, i, mode, escape);
      mode, escape, out, i := turn.mode, turn.escape, out + turn.out, i + turn.used;
    }
    PiecesDivide(input);
    ScanKeeps(Pieces(input));
  }

  /** The switch inside the loop, looking one byte ahead where it has to. */
  method Switch(input: string, i: nat, mode: Mode, escape: bool) returns (m: Move)
    requires i < |input|
    ensures m == Turn(mode, escape, input[i..])
  {
    var c := input[i];
    m := Move(mode, escape, "", 1);
    match mode {
      case Normal =>
        if c == '/' && i + 1 < |input| && (input[i + 1] == '/' || input[i + 1] == '*') {
          m := Move(if input[i + 1] == '/' then Line else Block, escape, "", 2);
        } else {
          m := Move(if c == '"' then Quoted else Normal, escape, [c], 1);
        }
      case Quoted =>
        m := m.(out := [c]);
        if escape {
          m := m.(escape := false);
        } else if c == '\\' {
          m := m.(escape := true);
        } else if c == '"' {
          m := m.(mode := Normal);
        }
      case Line =>
        if c == '\n' {
          m := m.(mode := Normal, out := [c]);
        }
      case Block =>
        if c == '*' && i + 1 < |input| && input[i + 1] == '/' {
          m := m.(mode := Normal, used := 2);
        }
    }
  }

  // ---------------------------------------------------------------- what stripping promises

  /** The pieces of the stripped text: comments gone, a line comment's newline now code. */
  function Cleaned(ps: seq<Piece>): seq<Piece> {
    if ps == [] then []
    else (match ps[0]
      case LineComment(_, closed) => if closed then [Code('\n')] else []
      case BlockComment(_, _) => []
      case _ => [ps[0]]) + Cleaned(ps[1..])
  }

  /** The text that is left starts as the original did, unless that started with a comment. */
  lemma {:induction false} KeptStart(ps: seq<Piece>)
    requires WellFormed(ps) && ps != []
    ensures TextAll(ps) != ""
    ensures if IsComment(ps[0]) then TextAll(ps)[0] == '/' else KeptAll(ps) != "" && KeptAll(ps)[0] == TextAll(ps)[0]
  {
    assert TextAll(ps) == Text(ps[0]) + TextAll(ps[1..]);
    assert Text(ps[0])[0] == Opening(ps[0])[0];
  }

  lemma MeetsKept(p: Piece, ps: seq<Piece>)
    requires WellFormed(ps) && Meets(p, TextAll(ps))
    ensures Meets(p, KeptAll(ps))
  {
    if ps != [] {
      KeptStart(ps);
    }
  }

  lemma {:induction false} CleanedWellFormed(ps: seq<Piece>)
    requires WellFormed(ps)
    ensures TextAll(Cleaned(ps)) == KeptAll(ps) && WellFormed(Cleaned(ps))
  {
    if ps != [] {
      var p, rest := ps[0], ps[1..];
      CleanedWellFormed(rest);
      MeetsKept(p, rest);
      var kept := if p.LineComment? then Code('\n') else p;
      if !IsComment(p) || (p.LineComment? && p.closed) {
        assert Cleaned(ps) == [kept] + Cleaned(rest);
        assert Cleaned(ps)[1..] == Cleaned(rest);
        assert Text(kept) == Kept(p);
      } else {
        assert Cleaned(ps) == Cleaned(rest);
        assert Kept(p) == "";
      }
    }
  }

  lemma {:induction false} CleanedHasNoComment(ps: seq<Piece>)
    ensures forall p :: p in Cleaned(ps) ==> !IsComment(p)
    ensures Cleaned(Cleaned(ps)) == Cleaned(ps)
  {
    if ps != [] {
      CleanedHasNoComment(ps[1..]);
      var first := Cleaned(ps)[..|Cleaned(ps)| - |Cleaned(ps[1..])|];
      assert Cleaned(ps) == first + Cleaned(ps[1..]);
      if first != [] {
        assert Cleaned(ps)[1..] == Cleaned(ps[1..]);
      }
    }
  }

  /** The stripped text divides into exactly the surviving pieces: nothing fuses into a comment. */
  lemma StrippedPieces(s: string)
    ensures Pieces(Stripped(s)) == Cleaned(Pieces(s))
  {
    PiecesDivide(s);
    CleanedWellFormed(Pieces(s));
    DivisionUnique(Cleaned(Pieces(s)));
  }

  lemma StripIdempotent(s: string)
    ensures Stripped(Stripped(s)) == Stripped(s)
  {
    StrippedPieces(s);
    PiecesDivide(s);
    CleanedWellFormed(Pieces(s));
    PiecesDivide(Stripped(s));
    CleanedWellFormed(Pieces(Stripped(s)));
    CleanedHasNoComment(Pieces(s));
  }

  lemma {:induction false} KeptLength(ps: seq<Piece>)
    ensures |KeptAll(ps)| <= |TextAll(ps)|
    ensures (exists p :: p in ps && IsComment(p)) ==> |KeptAll(ps)| < |TextAll(ps)|
    ensures (forall p :: p in ps ==> !IsComment(p)) ==> KeptAll(ps) == TextAll(ps)
  {
    if ps != [] {
      KeptLength(ps[1..]);
      assert ps == [ps[0]] + ps[1..];
      assert !IsComment(ps[0]) ==> Kept(ps[0]) == Text(ps[0]);
      assert forall p :: p in ps[1..] ==> p in ps;
    }
  }

  /** A text is left alone exactly when no comment opens outside its string literals. */
  lemma StripIdentity(s: string)
    ensures Stripped(s) == s <==> forall p :: p in Pieces(s) ==> !IsComment(p)
  {
    PiecesDivide(s);
    KeptLength(Pieces(s));
  }

  function Literals(ps: seq<Piece>): seq<string> {
    if ps == [] then [] else (if ps[0].Literal? then [Text(ps[0])] else []) + Literals(ps[1..])
  }

  lemma {:induction false} CleanedLiterals(ps: seq<Piece>)
    ensures Literals(Cleaned(ps)) == Literals(ps)
  {
    if ps != [] {
      CleanedLiterals(ps[1..]);
      var first := Cleaned(ps)[..|Cleaned(ps)| - |Cleaned(ps[1..])|];
      assert Cleaned(ps) == first + Cleaned(ps[1..]);
      if first != [] {
        assert Cleaned(ps)[1..] == Cleaned(ps[1..]);
      }
    }
  }

  /** The string literals of the result are those of the input, byte for byte and in order. */
  lemma LiteralsSurvive(s: string)
    ensures Literals(Pieces(Stripped(s))) == Literals(Pieces(s))
  {
    StrippedPieces(s);
    CleanedLiterals(Pieces(s));
  }
}
