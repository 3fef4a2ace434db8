/** Reading and writing a decoded settings document at a token path (section 4 of RFC 6901). */
module SettingsTree {
  import opened Basics
  import opened KeyCodec

  datatype Json = Object(fields: map<string, Json>) | Array(items: seq<Json>) | Scalar(text: string)

  /** strconv.Atoi without the bound check: "+1", "01" and "-0" are read as numbers too. */
  function IndexOf(token: string): Option<int> {
    ParseInt(token)
  }

  /** Two tokens that never name the same child of any document. */
  predicate Apart(t: string, u: string) {
    t != u && !SameIndex(t, u)
  }

  /** Two spellings of one array position. */
  predicate SameIndex(t: string, u: string) {
    IndexOf(t).Some? && IndexOf(t) == IndexOf(u) && IndexOf(t).value >= 0
  }

  function Child(doc: Json, token: string): Option<Json> {
    match doc
    case Object(fields) => Lookup(fields, token)
    case Array(items) =>
      var i := IndexOf(token);
      if i.Some? && 0 <= i.value < |items| then Some(items[i.value]) else None
    case Scalar(_) => None
  }

  function WithChild(doc: Json, token: string, v: Json): Json
    requires Child(doc, token).Some?
  {
    match doc
    case Object(fields) => Object(fields[token := v])
    case Array(items) => Array(items[IndexOf(token).value := v])
  }

  function GetAt(doc: Json, path: seq<string>): Option<Json>
    decreases |path|
  {
    if path == [] then Some(doc)
    else
      match Child(doc, path[0])
      case None => None
      case Some(c) => GetAt(c, path[1..])
  }

  /** Replaces what is at the path, which must be there already. */
  function SetAt(doc: Json, path: seq<string>, v: Json): Option<Json>
    decreases |path|
  {
    if path == [] then Some(v)
    else
      match Child(doc, path[0])
      case None => None
      case Some(c) =>
        match SetAt(c, path[1..], v)
        case None => None
        case Some(c') => Some(WithChild(doc, path[0], c'))
  }

  /** What a container declares: its field names or its length; a scalar, its value. */
  datatype Shape = Names(names: set<string>) | Length(n: nat) | Plain(text: string)

  function ShapeOf(doc: Json): Shape {
    match doc
    case Object(fields) => Names(fields.Keys)
    case Array(items) => Length(|items|)
    case Scalar(text) => Plain(text)
  }

  function ShapeAt(doc: Json, path: seq<string>): Option<Shape> {
    var v := GetAt(doc, path);
    if v.Some? then Some(ShapeOf(v.value)) else None
  }

  /** Somewhere the two paths turn to different children. */
  predicate Diverge(p: seq<string>, q: seq<string>) {
    exists i :: 0 <= i < |p| && i < |q| && Apart(p[i], q[i])
  }

  /** The place p names may be q's own or one above it. */
  predicate Covers(p: seq<string>, q: seq<string>) {
    |p| <= |q| && !Diverge(p, q)
  }

  // ---------------------------------------------------------------- laws

  /** Reading one token more: a field of an object by its name, an item of an array by its number. */
  lemma {:induction false} GetAtMore(doc: Json, path: seq<string>, i: nat)
    requires i < |path|
    ensures GetAt(doc, path[..i + 1]) ==
      match GetAt(doc, path[..i])
      case None => None
      case Some(node) => Child(node, path[i])
    decreases i
  {
    assert path[..i + 1][0] == path[0];
    if i == 0 {
      assert path[..1][1..] == [] && path[..0] == [];
    } else if Child(doc, path[0]).Some? {
      GetAtMore(Child(doc, path[0]).value, path[1..], i - 1);
      assert path[..i + 1][1..] == path[1..][..i] && path[..i][1..] == path[1..][..i - 1];
    }
  }

  lemma ReadsItem(items: seq<Json>, i: nat)
    requires Int64(i)
    ensures GetAt(Array(items), [Format(i)]) == if i < |items| then Some(items[i]) else None
  {
    ParseFormat(i);
    assert [Format(i)][1..] == [];
  }

  lemma ReadsField(fields: map<string, Json>, name: string)
    ensures GetAt(Object(fields), [name]) == Lookup(fields, name)
  {
    assert [name][1..] == [];
  }

  lemma ChildAfter(doc: Json, t: string, v: Json, u: string)
    requires Child(doc, t).Some?
    ensures ShapeOf(WithChild(doc, t, v)) == ShapeOf(doc)
    ensures Child(WithChild(doc, t, v), t) == Some(v)
    ensures
      || Child(WithChild(doc, t, v), u) == Child(doc, u)
      || (!Apart(t, u) && Child(WithChild(doc, t, v), u) == Some(v) && Child(doc, u) == Child(doc, t))
  {
  }

  /** A write succeeds exactly where a read does: nothing is ever created. */
  lemma {:induction false} SetWhereGet(doc: Json, path: seq<string>, v: Json)
    ensures SetAt(doc, path, v).Some? <==> GetAt(doc, path).Some?
    decreases |path|
  {
    if path != [] && Child(doc, path[0]).Some? {
      SetWhereGet(Child(doc, path[0]).value, path[1..], v);
    }
  }

  lemma {:induction false} ReadWritten(doc: Json, path: seq<string>, v: Json, below: seq<string>)
    requires SetAt(doc, path, v).Some?
    ensures GetAt(SetAt(doc, path, v).value, path + below) == GetAt(v, below)
    decreases |path|
  {
    if path == [] {
      assert path + below == below;
    } else {
      var c := Child(doc, path[0]).value;
      ReadWritten(c, path[1..], v, below);
      ChildAfter(doc, path[0], SetAt(c, path[1..], v).value, path[0]);
      assert (path + below)[1..] == path[1..] + below;
    }
  }

  lemma DivergeLater(p: seq<string>, q: seq<string>)
    requires p != [] && q != [] && Diverge(p, q) && !Apart(p[0], q[0])
    ensures Diverge(p[1..], q[1..])
  {
    var i :| 0 <= i < |p| && i < |q| && Apart(p[i], q[i]);
    assert p[1..][i - 1] == p[i] && q[1..][i - 1] == q[i];
  }

  /** A write leaves every diverging path as it was. */
  lemma {:induction false} DivergingUntouched(doc: Json, p: seq<string>, v: Json, q: seq<string>)
    requires SetAt(doc, p, v).Some? && Diverge(p, q)
    ensures GetAt(SetAt(doc, p, v).value, q) == GetAt(doc, q)
    decreases |p|
  {
    var c := Child(doc, p[0]).value;
    var c' := SetAt(c, p[1..], v).value;
    ChildAfter(doc, p[0], c', q[0]);
    if !Apart(p[0], q[0]) {
      DivergeLater(p, q);
      DivergingUntouched(c, p[1..], v, q[1..]);
    }
  }

  lemma CoversLater(p: seq<string>, q: seq<string>)
    requires p != [] && q != [] && !Covers(p, q) && !Apart(p[0], q[0])
    ensures !Covers(p[1..], q[1..])
  {
    if Diverge(p, q) {
      DivergeLater(p, q);
    }
  }

  /** Whatever a write does not replace keeps its fields, its length or its value. */
  lemma {:induction false} StructureUntouched(doc: Json, p: seq<string>, v: Json, q: seq<string>)
    requires SetAt(doc, p, v).Some? && !Covers(p, q)
    ensures ShapeAt(SetAt(doc, p, v).value, q) == ShapeAt(doc, q)
    decreases |p|
  {
    if p != [] {
      var c := Child(doc, p[0]).value;
      var c' := SetAt(c, p[1..], v).value;
      if q == [] {
        ChildAfter(doc, p[0], c', p[0]);
      } else {
        ChildAfter(doc, p[0], c', q[0]);
        if !Apart(p[0], q[0]) {
          CoversLater(p, q);
          StructureUntouched(c, p[1..], v, q[1..]);
        }
      }
    }
  }

  // ---------------------------------------------------------------- where two paths meet

  /** The two tokens enter one child of this very document. */
  predicate SameChild(doc: Json, t: string, u: string) {
    match doc
    case Object(_) => t == u
    case Array(_) => SameIndex(t, u)
    case Scalar(_) => false
  }

  /** One path's place in this document is the other's, or lies above or below it. */
  predicate Meet(doc: Json, p: seq<string>, q: seq<string>)
    decreases |p|
  {
    p == [] || q == [] ||
    (Child(doc, p[0]).Some? && SameChild(doc, p[0], q[0]) && Meet(Child(doc, p[0]).value, p[1..], q[1..]))
  }

  lemma ChildExactly(doc: Json, t: string, v: Json, u: string)
    requires Child(doc, t).Some? && Child(doc, u).Some?
    ensures Child(WithChild(doc, t, v), u) == if SameChild(doc, t, u) then Some(v) else Child(doc, u)
    ensures SameChild(doc, t, u) ==> Child(doc, u) == Child(doc, t)
  {
  }

  /** A write leaves what it does not meet. */
  lemma {:induction false} UnmetUntouched(doc: Json, p: seq<string>, v: Json, q: seq<string>)
    requires SetAt(doc, p, v).Some? && GetAt(doc, q).Some? && !Meet(doc, p, q)
    ensures GetAt(SetAt(doc, p, v).value, q) == GetAt(doc, q)
    decreases |p|
  {
    var c := Child(doc, p[0]).value;
    ChildExactly(doc, p[0], SetAt(c, p[1..], v).value, q[0]);
    if SameChild(doc, p[0], q[0]) {
      UnmetUntouched(c, p[1..], v, q[1..]);
    }
  }

  /** A value that shows at q once it is written at p. */
  function Telltale(doc: Json, p: seq<string>, q: seq<string>): Json {
    if |q| > |p| || GetAt(doc, p) != Some(Scalar("")) then Scalar("") else Scalar("other")
  }

  /** What a write meets, some value disturbs. */
  lemma {:induction false} MetDisturbed(doc: Json, p: seq<string>, v: Json, q: seq<string>)
    requires SetAt(doc, p, v).Some? && GetAt(doc, q).Some? && Meet(doc, p, q)
    requires v.Scalar? && (|q| <= |p| ==> GetAt(doc, p) != Some(v))
    ensures GetAt(SetAt(doc, p, v).value, q) != GetAt(doc, q)
    decreases |p|
  {
    if q == [] {
      ReadWritten(doc, p, v, []);
      assert p + [] == p;
    } else if p != [] {
      var c := Child(doc, p[0]).value;
      ChildExactly(doc, p[0], SetAt(c, p[1..], v).value, q[0]);
      MetDisturbed(c, p[1..], v, q[1..]);
    }
  }

  /** Of two places that resolve, writing one leaves the other whatever is written exactly if they do not meet. */
  lemma UndisturbedExactly(doc: Json, p: seq<string>, q: seq<string>)
    requires GetAt(doc, p).Some? && GetAt(doc, q).Some?
    ensures (forall v :: SetAt(doc, p, v).Some? && GetAt(SetAt(doc, p, v).value, q) == GetAt(doc, q))
      <==> !Meet(doc, p, q)
  {
    forall v ensures SetAt(doc, p, v).Some? {
      SetWhereGet(doc, p, v);
    }
    if Meet(doc, p, q) {
      MetDisturbed(doc, p, Telltale(doc, p, q), q);
    } else {
      forall v ensures GetAt(SetAt(doc, p, v).value, q) == GetAt(doc, q) {
        UnmetUntouched(doc, p, v, q);
      }
    }
  }

  /** Paths that diverge as texts meet in no document. */
  lemma {:induction false} DivergingNeverMeet(doc: Json, p: seq<string>, q: seq<string>)
    requires Diverge(p, q)
    ensures !Meet(doc, p, q)
    decreases |p|
  {
    if !Apart(p[0], q[0]) {
      DivergeLater(p, q);
      if Child(doc, p[0]).Some? {
        DivergingNeverMeet(Child(doc, p[0]).value, p[1..], q[1..]);
      }
    }
  }
}
