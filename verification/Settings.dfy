/**
  Operator settings overrides (internal/hooks/settingsoverride.go): pins applied to a decoded
  settings document in pointer order, all of them or none.
 */
module Settings {
  import opened Basics
  import opened KeyCodec
  import opened Pointer
  import opened SettingsTree

  /** A pin's raw text, and its decoded value if the text is JSON. */
  datatype Pin = Pin(text: string, value: Option<Json>)

  type Pins = map<string, Pin>

  datatype PinError =
    | HasReferenceSyntax
    | BadJson
    | NotAPointer
    | NoSuchField(path: seq<string>)
    | NotAnIndex(token: string)
    | NotAContainer(token: string)

  datatype ApplyError = PinRefused(pointer: string, error: PinError) | SchemaRefused

  /** strings.Contains(text, "${") */
  predicate HasReference(text: string) {
    exists i :: 0 <= i < |text| - 1 && text[i] == '$' && text[i + 1] == '{'
  }

  /** So a text with a reference anywhere in it is found out, and no other is. */
  lemma HasReferenceExactly(text: string)
    ensures HasReference(text) <==> exists before, after :: text == before + "${" + after
  {
    if HasReference(text) {
      var i :| 0 <= i < |text| - 1 && text[i] == '$' && text[i + 1] == '{';
      assert text == text[..i] + "${" + text[i + 2..];
    }
    if before, after :| text == before + "${" + after {
      assert text[|before|] == '$' && text[|before| + 1] == '{';
    }
  }

  // ---------------------------------------------------------------- pointer order

  predicate Ordered(order: seq<string>) {
    forall i, j :: 0 <= i < j < |order| ==> Less(order[i], order[j])
  }

  ghost predicate IsOrder(order: seq<string>, keys: set<string>) {
    Ordered(order) && forall p :: p in order <==> p in keys
  }

  function Insert(order: seq<string>, p: string): seq<string> {
    if order == [] then [p]
    else if Less(p, order[0]) then [p] + order
    else [order[0]] + Insert(order[1..], p)
  }

  lemma {:induction false} InsertMembers(order: seq<string>, p: string)
    ensures forall x :: x in Insert(order, p) <==> x == p || x in order
  {
    if order != [] && !Less(p, order[0]) {
      InsertMembers(order[1..], p);
      assert order == [order[0]] + order[1..];
    }
  }

  lemma {:induction false} InsertOrdered(order: seq<string>, p: string)
    requires Ordered(order) && p !in order
    ensures Ordered(Insert(order, p))
  {
    if order != [] {
      var first := order[0];
      if Less(p, first) {
        forall j | 0 <= j < |order| ensures Less(p, order[j]) {
          if j > 0 {
            LessTransitive(p, first, order[j]);
          }
        }
      } else {
        var rest := Insert(order[1..], p);
        InsertOrdered(order[1..], p);
        InsertMembers(order[1..], p);
        LessTotal(p, first);
        forall j | 0 <= j < |rest| ensures Less(first, rest[j]) {
          assert rest[j] in Insert(order[1..], p);
        }
      }
    }
  }

  /** sortedPointers: the map's keys, collected one by one and sorted. */
  method SortedPointers(keys: set<string>) returns (order: seq<string>)
    ensures IsOrder(order, keys)
  {
    order := [];
    var todo := keys;
    while todo != {}
      invariant todo <= keys && Ordered(order) && forall p :: p in order <==> p in keys && p !in todo
      decreases todo
    {
      var p :| p in todo;
      InsertMembers(order, p);
      InsertOrdered(order, p);
      order := Insert(order, p);
      todo := todo - {p};
    }
  }

  /** The order does not depend on how the map is walked. */
  lemma {:induction false} OrderUnique(a: seq<string>, b: seq<string>, keys: set<string>)
    requires IsOrder(a, keys) && IsOrder(b, keys)
    ensures a == b
    decreases |a|
  {
    OrderEmpty(a, keys);
    OrderEmpty(b, keys);
    if a != [] {
      FirstIsLeast(a, b[0]);
      FirstIsLeast(b, a[0]);
      LessAsymmetric(a[0], b[0]);
      TailOrder(a, keys);
      TailOrder(b, keys);
      OrderUnique(a[1..], b[1..], keys - {a[0]});
      assert a == [a[0]] + a[1..] && b == [b[0]] + b[1..];
    }
  }

  lemma OrderEmpty(order: seq<string>, keys: set<string>)
    requires IsOrder(order, keys)
    ensures order == [] <==> keys == {}
  {
    if order != [] {
      assert order[0] in order;
    } else {
      assert keys == set p | p in order;
    }
  }

  lemma LessAsymmetric(a: string, b: string)
    ensures !(Less(a, b) && Less(b, a))
  {
    if Less(a, b) && Less(b, a) {
      LessTransitive(a, b, a);
      LessIrreflexive(a);
    }
  }

  lemma FirstIsLeast(order: seq<string>, p: string)
    requires order != [] && Ordered(order) && p in order
    ensures p == order[0] || Less(order[0], p)
  {
    var i :| 0 <= i < |order| && order[i] == p;
  }

  lemma TailOrder(order: seq<string>, keys: set<string>)
    requires order != [] && IsOrder(order, keys)
    ensures IsOrder(order[1..], keys - {order[0]})
  {
    LessIrreflexive(order[0]);
    assert order == [order[0]] + order[1..];
    forall i | 0 < i < |order| ensures order[i] != order[0] {
      assert Less(order[0], order[i]);
    }
  }

  // ---------------------------------------------------------------- applying pins

  /** One pin: a literal JSON value at a pointer that resolves. */
  function PinStep(doc: Json, pointer: string, pin: Pin): Option<Json> {
    if HasReference(pin.text) || pin.value.None? || Tokens(pointer).None? then None
    else SetAt(doc, Tokens(pointer).value, pin.value.value)
  }

  /** The pins in the given order, up to the first that fails. */
  function ApplyAll(doc: Json, order: seq<string>, pins: Pins): Option<Json>
    requires forall p :: p in order ==> p in pins
  {
    if order == [] then Some(doc)
    else
      var n := |order| - 1;
      match ApplyAll(doc, order[..n], pins)
      case None => None
      case Some(d) => PinStep(d, order[n], pins[order[n]])
  }

  /** A path that diverges from every pin reads as before, whatever the pins and their order. */
  lemma {:induction false} OtherPathsUntouched(doc: Json, order: seq<string>, pins: Pins, q: seq<string>)
    requires forall p :: p in order ==> p in pins && Tokens(p).Some? && Diverge(Tokens(p).value, q)
    requires ApplyAll(doc, order, pins).Some?
    ensures GetAt(ApplyAll(doc, order, pins).value, q) == GetAt(doc, q)
  {
    if order != [] {
      var n := |order| - 1;
      var d := ApplyAll(doc, order[..n], pins).value;
      OtherPathsUntouched(doc, order[..n], pins, q);
      DivergingUntouched(d, Tokens(order[n]).value, pins[order[n]].value.value, q);
    }
  }

  /** A place that no pin replaces keeps its field names, its length or its value. */
  lemma {:induction false} StructureKept(doc: Json, order: seq<string>, pins: Pins, q: seq<string>)
    requires forall p :: p in order ==> p in pins && Tokens(p).Some? && !Covers(Tokens(p).value, q)
    requires ApplyAll(doc, order, pins).Some?
    ensures ShapeAt(ApplyAll(doc, order, pins).value, q) == ShapeAt(doc, q)
  {
    if order != [] {
      var n := |order| - 1;
      var d := ApplyAll(doc, order[..n], pins).value;
      StructureKept(doc, order[..n], pins, q);
      StructureUntouched(d, Tokens(order[n]).value, pins[order[n]].value.value, q);
    }
  }

  /** Well-escaped pointers, no two of which spell one array index in two ways at the same depth. */
  predicate Canonical(keys: set<string>) {
    && (forall p :: p in keys ==> Tokens(p).Some? && WellEscaped(p))
    && forall p, q :: p in keys && q in keys ==> SpelledAlike(Tokens(p).value, Tokens(q).value)
  }

  predicate SpelledAlike(a: seq<string>, b: seq<string>) {
    forall i :: 0 <= i < |a| && i < |b| ==> a[i] == b[i] || Apart(a[i], b[i])
  }

  lemma SpelledCovers(a: seq<string>, b: seq<string>)
    requires SpelledAlike(a, b) && Covers(a, b)
    ensures a <= b
  {
    forall i | 0 <= i < |a| ensures a[i] == b[i] {
      assert !Apart(a[i], b[i]);
    }
  }

  /** A pin is applied after every pin whose place its own path goes through. */
  lemma DeeperAfter(order: seq<string>, keys: set<string>, i: nat, j: nat)
    requires IsOrder(order, keys) && Canonical(keys) && i < |order| && j < |order| && i != j
    requires Covers(Tokens(order[i]).value, Tokens(order[j]).value)
    ensures i < j
  {
    var p, q := order[i], order[j];
    assert p in order && q in order;
    SpelledCovers(Tokens(p).value, Tokens(q).value);
    PointerRewrite(p);
    PointerRewrite(q);
    LessIrreflexive(p);
    if Tokens(p).value != Tokens(q).value {
      ExtensionSortsLater(p, q);
      LessAsymmetric(p, q);
    }
  }

  /** The document that pin number j is applied to. */
  function Before(doc: Json, order: seq<string>, pins: Pins, j: nat): Json
    requires (forall p :: p in order ==> p in pins) && j <= |order| && ApplyAll(doc, order, pins).Some?
  {
    PrefixApplies(doc, order, pins, j);
    ApplyAll(doc, order[..j], pins).value
  }

  lemma {:induction false} PrefixApplies(doc: Json, order: seq<string>, pins: Pins, j: nat)
    requires (forall p :: p in order ==> p in pins) && j <= |order| && ApplyAll(doc, order, pins).Some?
    ensures ApplyAll(doc, order[..j], pins).Some?
  {
    if j == |order| {
      assert order[..j] == order;
    } else {
      assert order[..|order| - 1][..j] == order[..j];
      PrefixApplies(doc, order[..|order| - 1], pins, j);
    }
  }

  /** No pin after number k meets its place, in the document it is applied to. */
  predicate Unmet(doc: Json, order: seq<string>, pins: Pins, k: nat)
    requires forall p :: p in order ==> p in pins && Tokens(p).Some?
    requires ApplyAll(doc, order, pins).Some? && k < |order|
  {
    forall j :: k < j < |order| ==>
      !Meet(Before(doc, order, pins, j), Tokens(order[j]).value, Tokens(order[k]).value)
  }

  lemma UnmetFront(doc: Json, order: seq<string>, pins: Pins, k: nat)
    requires forall p :: p in order ==> p in pins && Tokens(p).Some?
    requires k < |order| - 1 && ApplyAll(doc, order, pins).Some? && Unmet(doc, order, pins, k)
    ensures ApplyAll(doc, order[..|order| - 1], pins).Some? && Unmet(doc, order[..|order| - 1], pins, k)
  {
    var front := order[..|order| - 1];
    forall j | k < j < |front|
      ensures !Meet(Before(doc, front, pins, j), Tokens(front[j]).value, Tokens(front[k]).value)
    {
      assert front[..j] == order[..j];
      assert !Meet(Before(doc, order, pins, j), Tokens(order[j]).value, Tokens(order[k]).value);
    }
  }

  /** A pin that no later pin meets reads back its own value after the merge. */
  lemma {:induction false} UnmetReadsBack(doc: Json, order: seq<string>, pins: Pins, k: nat)
    requires forall p :: p in order ==> p in pins && Tokens(p).Some?
    requires k < |order| && ApplyAll(doc, order, pins).Some? && Unmet(doc, order, pins, k)
    ensures GetAt(ApplyAll(doc, order, pins).value, Tokens(order[k]).value) == pins[order[k]].value
  {
    var n := |order| - 1;
    LastPin(doc, order, pins);
    var d, path, v := Before(doc, order, pins, n), Tokens(order[n]).value, pins[order[n]].value.value;
    if k == n {
      ReadWritten(d, path, v, []);
      assert path + [] == path;
    } else {
      UnmetFront(doc, order, pins, k);
      UnmetReadsBack(doc, order[..n], pins, k);
      PinHasValue(doc, order, pins, k);
      UnmetUntouched(d, path, v, Tokens(order[k]).value);
    }
  }

  lemma LastPin(doc: Json, order: seq<string>, pins: Pins)
    requires (forall p :: p in order ==> p in pins) && order != [] && ApplyAll(doc, order, pins).Some?
    ensures var n := |order| - 1;
      && pins[order[n]].value.Some? && Tokens(order[n]).Some?
      && SetAt(Before(doc, order, pins, n), Tokens(order[n]).value, pins[order[n]].value.value)
         == ApplyAll(doc, order, pins)
  {
  }

  lemma PinHasValue(doc: Json, order: seq<string>, pins: Pins, k: nat)
    requires (forall p :: p in order ==> p in pins) && k < |order| && ApplyAll(doc, order, pins).Some?
    ensures pins[order[k]].value.Some?
  {
    PrefixApplies(doc, order, pins, k + 1);
    LastPin(doc, order[..k + 1], pins);
  }

  /**
    The condition is exact, turn by turn: pin j leaves the place of an earlier pin as it finds it,
    whatever value it carries, if and only if the two do not meet in the document it is applied to.
   */
  lemma TurnExactly(doc: Json, order: seq<string>, pins: Pins, k: nat, j: nat)
    requires forall p :: p in order ==> p in pins && Tokens(p).Some?
    requires k < j < |order| && ApplyAll(doc, order, pins).Some?
    requires GetAt(Before(doc, order, pins, j), Tokens(order[k]).value).Some?
    ensures var d, p, q := Before(doc, order, pins, j), Tokens(order[j]).value, Tokens(order[k]).value;
      (forall v :: SetAt(d, p, v).Some? && GetAt(SetAt(d, p, v).value, q) == GetAt(d, q)) <==> !Meet(d, p, q)
  {
    PinResolves(doc, order, pins, j);
    UndisturbedExactly(Before(doc, order, pins, j), Tokens(order[j]).value, Tokens(order[k]).value);
  }

  lemma PinResolves(doc: Json, order: seq<string>, pins: Pins, j: nat)
    requires (forall p :: p in order ==> p in pins) && j < |order| && ApplyAll(doc, order, pins).Some?
    ensures Tokens(order[j]).Some? && GetAt(Before(doc, order, pins, j), Tokens(order[j]).value).Some?
  {
    PrefixApplies(doc, order, pins, j + 1);
    LastPin(doc, order[..j + 1], pins);
    assert order[..j + 1][..j] == order[..j];
    SetWhereGet(Before(doc, order, pins, j), Tokens(order[j]).value, pins[order[j]].value.value);
  }

  /** With canonical pointers, a pin with no pin below it reads back its own value after the merge. */
  lemma PinReadsBack(doc: Json, order: seq<string>, pins: Pins, k: nat)
    requires IsOrder(order, pins.Keys) && Canonical(pins.Keys) && k < |order|
    requires ApplyAll(doc, order, pins).Some?
    requires forall j :: 0 <= j < |order| && j != k ==> !Covers(Tokens(order[k]).value, Tokens(order[j]).value)
    ensures GetAt(ApplyAll(doc, order, pins).value, Tokens(order[k]).value) == pins[order[k]].value
  {
    forall j | k < j < |order|
      ensures !Meet(Before(doc, order, pins, j), Tokens(order[j]).value, Tokens(order[k]).value)
    {
      assert order[j] in order && order[k] in order;
      if Covers(Tokens(order[j]).value, Tokens(order[k]).value) {
        DeeperAfter(order, pins.Keys, j, k);
      }
      DivergeBoth(Tokens(order[k]).value, Tokens(order[j]).value);
      DivergingNeverMeet(Before(doc, order, pins, j), Tokens(order[j]).value, Tokens(order[k]).value);
    }
    UnmetReadsBack(doc, order, pins, k);
  }

  lemma DivergeBoth(a: seq<string>, b: seq<string>)
    ensures Diverge(a, b) ==> Diverge(b, a)
  {
    if i :| 0 <= i < |a| && i < |b| && Apart(a[i], b[i]) {
      assert Apart(b[i], a[i]);
    }
  }

  /** Two pins in their order. */
  lemma TwoPins(doc: Json, p: string, v: Json, once: Json, q: string, w: Json, twice: Json)
    requires Less(p, q) && Tokens(p).Some? && Tokens(q).Some?
    requires SetAt(doc, Tokens(p).value, v) == Some(once) && SetAt(once, Tokens(q).value, w) == Some(twice)
    ensures var pins: Pins := map[p := Pin("", Some(v)), q := Pin("", Some(w))];
      IsOrder([p, q], pins.Keys) && ApplyAll(doc, [p, q], pins) == Some(twice)
  {
    LessIrreflexive(p);
    var pins: Pins := map[p := Pin("", Some(v)), q := Pin("", Some(w))];
    TwoInOrder(p, q, pins.Keys);
    LiteralPin(doc, p, v, once);
    LiteralPin(once, q, w, twice);
    ApplyTwo(doc, p, once, q, twice, pins);
  }

  lemma TwoInOrder(p: string, q: string, keys: set<string>)
    requires Less(p, q) && keys == {p, q}
    ensures IsOrder([p, q], keys)
  {
  }

  lemma ApplyTwo(doc: Json, p: string, once: Json, q: string, twice: Json, pins: Pins)
    requires p in pins && q in pins
    requires PinStep(doc, p, pins[p]) == Some(once) && PinStep(once, q, pins[q]) == Some(twice)
    ensures ApplyAll(doc, [p, q], pins) == Some(twice)
  {
    var none: seq<string> := [];
    ApplyMore(doc, none, p, pins);
    assert none + [p] == [p] && [p] + [q] == [p, q];
    ApplyMore(doc, [p], q, pins);
  }

  lemma LiteralPin(doc: Json, pointer: string, v: Json, result: Json)
    requires Tokens(pointer).Some? && SetAt(doc, Tokens(pointer).value, v) == Some(result)
    ensures PinStep(doc, pointer, Pin("", Some(v))) == Some(result)
  {
    assert !HasReference("");
  }

  lemma ApplyMore(doc: Json, order: seq<string>, p: string, pins: Pins)
    requires p in pins && forall x :: x in order ==> x in pins
    ensures ApplyAll(doc, order + [p], pins) ==
      var d := ApplyAll(doc, order, pins); if d.None? then None else PinStep(d.value, p, pins[p])
  {
    assert (order + [p])[..|order|] == order;
  }

  /** Without canonical indices the law fails: "/0" and "/00" name one element, and the later wins. */
  lemma AliasOverwrites(x: Json, v: Json, w: Json)
    ensures var pins: Pins := map["/0" := Pin("", Some(v)), "/00" := Pin("", Some(w))];
      && IsOrder(["/0", "/00"], pins.Keys)
      && Tokens("/0") == Some(["0"])
      && ApplyAll(Array([x]), ["/0", "/00"], pins) == Some(Array([w]))
      && GetAt(Array([w]), ["0"]) == Some(w)
  {
    PlainTokens("0");
    DoubleZero();
    ZeroIndices();
    PrefixLess("/0", "0");
    assert "/0" + "0" == "/00" && "/" + "0" == "/0";
    SetElement(x, "0", v);
    SetElement(v, "0", w);
    SetDoubleZero(v, w);
    TwoPins(Array([x]), "/0", v, Array([v]), "/00", w, Array([w]));
  }

  /** "/0/x" sorts before "/00", so a deeper pin is applied first and a shallower one replaces it. */
  lemma AliasBuriesDeeper(x: Json, v: Json, w: Json)
    ensures var pins: Pins := map["/0/x" := Pin("", Some(v)), "/00" := Pin("", Some(w))];
      && IsOrder(["/0/x", "/00"], pins.Keys)
      && Tokens("/0/x") == Some(["0", "x"]) && Tokens("/00") == Some(["00"])
      && ApplyAll(Array([Object(map["x" := x])]), ["/0/x", "/00"], pins) == Some(Array([w]))
  {
    BuriedTokens();
    DoubleZero();
    SetField(x, v);
    SetDoubleZero(Object(map["x" := v]), w);
    TwoPins(Array([Object(map["x" := x])]), "/0/x", v, Array([Object(map["x" := v])]), "/00", w, Array([w]));
  }

  lemma DoubleZero()
    ensures Tokens("/00") == Some(["00"])
  {
    PlainTokens("00");
    assert "/" + "00" == "/00";
  }

  lemma SetDoubleZero(x: Json, v: Json)
    ensures SetAt(Array([x]), ["00"], v) == Some(Array([v]))
  {
    ZeroIndices();
    SetElement(x, "00", v);
  }

  lemma BuriedTokens()
    ensures Tokens("/0/x") == Some(["0", "x"]) && Less("/0/x", "/00")
  {
    BuriedSortsFirst();
    PlainDecode("0");
    PlainTokens("x");
    assert "/" + "x" == "/x";
    TokensOf("0", "/x");
    assert "/" + "0" + "/x" == "/0/x";
    assert Later("/x") == Split("/x"[1..]);
    assert ["0"] + ["x"] == ["0", "x"];
  }

  lemma BuriedSortsFirst()
    ensures Less("/0/x", "/00")
  {
    LessConcat("/0", "/0", "/x", "0");
    assert "/0" + "/x" == "/0/x" && "/0" + "0" == "/00";
  }

  lemma ZeroIndices()
    ensures IndexOf("0") == Some(0) && IndexOf("00") == Some(0)
  {
    assert "00"[..1] == "0" && "0"[..0] == "";
    assert Value("") == 0;
    assert Value("0") == 0;
    assert Value("00") == 0;
  }

  lemma SetField(x: Json, v: Json)
    ensures SetAt(Array([Object(map["x" := x])]), ["0", "x"], v) == Some(Array([Object(map["x" := v])]))
  {
    ZeroIndices();
    var inner := Object(map["x" := x]);
    assert ["0", "x"][1..] == ["x"] && ["x"][1..] == [];
    assert map["x" := x]["x" := v] == map["x" := v];
    assert SetAt(inner, ["x"], v) == Some(Object(map["x" := v]));
    assert [inner][0 := Object(map["x" := v])] == [Object(map["x" := v])];
  }

  lemma PlainTokens(t: string)
    requires '/' !in t && '~' !in t
    ensures Tokens("/" + t) == Some([t])
  {
    PlainDecode(t);
    TokensOf(t, "");
    assert "/" + t + "" == "/" + t;
    var none: seq<string> := DecodeAll(Later(""));
    assert none == [] && [t] + none == [t];
  }

  lemma {:induction false} PlainDecode(t: string)
    requires '~' !in t
    ensures Decode(t) == t
  {
    if t != "" {
      PlainDecode(t[1..]);
    }
  }

  lemma SetElement(x: Json, token: string, v: Json)
    requires IndexOf(token) == Some(0)
    ensures SetAt(Array([x]), [token], v) == Some(Array([v])) && GetAt(Array([v]), [token]) == Some(v)
  {
    assert [token][1..] == [];
    assert [x][0 := v] == [v];
  }

  /** Pins that all diverge from each other succeed together exactly when each resolves on its own. */
  lemma {:induction false} MergeSucceeds(doc: Json, order: seq<string>, pins: Pins)
    requires forall p :: p in order ==>
      p in pins && Tokens(p).Some? && !HasReference(pins[p].text) && pins[p].value.Some?
    requires forall i, j :: 0 <= i < j < |order| ==> Diverge(Tokens(order[i]).value, Tokens(order[j]).value)
    ensures ApplyAll(doc, order, pins).Some? <==> forall p :: p in order ==> GetAt(doc, Tokens(p).value).Some?
  {
    if order != [] {
      var n := |order| - 1;
      var last := order[n];
      MergeSucceeds(doc, order[..n], pins);
      assert order == order[..n] + [last];
      if ApplyAll(doc, order[..n], pins).Some? {
        LastPinResolves(doc, order, pins);
      }
    }
  }

  lemma LastPinResolves(doc: Json, order: seq<string>, pins: Pins)
    requires forall p :: p in order ==>
      p in pins && Tokens(p).Some? && !HasReference(pins[p].text) && pins[p].value.Some?
    requires forall i, j :: 0 <= i < j < |order| ==> Diverge(Tokens(order[i]).value, Tokens(order[j]).value)
    requires order != [] && ApplyAll(doc, order[..|order| - 1], pins).Some?
    ensures ApplyAll(doc, order, pins).Some? <==> GetAt(doc, Tokens(order[|order| - 1]).value).Some?
  {
    var n := |order| - 1;
    var last := order[n];
    forall p | p in order[..n] ensures Diverge(Tokens(p).value, Tokens(last).value) {
      var i :| 0 <= i < n && order[i] == p;
    }
    OtherPathsUntouched(doc, order[..n], pins, Tokens(last).value);
    SetWhereGet(ApplyAll(doc, order[..n], pins).value, Tokens(last).value, pins[last].value.value);
  }

  // ---------------------------------------------------------------- walking and merging

  /** getAtPointer: a cursor walks down, one token at a time. */
  method GetAtPointer(doc: Json, pointer: string) returns (r: Option<Json>)
    ensures r == if Tokens(pointer).None? then None else GetAt(doc, Tokens(pointer).value)
  {
    var tokens := ParsePointer(pointer);
    if tokens.None? {
      return None;
    }
    var path, cur := tokens.value, doc;
    var i := 0;
    while i < |path|
      invariant 0 <= i <= |path| && GetAt(doc, path) == GetAt(cur, path[i..])
    {
      assert path[i..][1..] == path[i + 1..];
      var next, _ := Enter(cur, path, i);
      if next.None? {
        return None;
      }
      cur := next.value;
      i := i + 1;
    }
    return Some(cur);
  }

  /** Why token i of a path leads nowhere from the node that the tokens before it lead to. */
  predicate StuckAt(cur: Json, path: seq<string>, i: nat, error: PinError)
    requires i < |path|
  {
    match cur
    case Object(fields) => path[i] !in fields && error == NoSuchField(path[..i + 1])
    case Array(items) =>
      var idx := IndexOf(path[i]);
      (idx.None? || idx.value < 0 || |items| <= idx.value) && error == NotAnIndex(path[i])
    case Scalar(_) => error == NotAContainer(path[i])
  }

  /** One turn of the walk, naming what went wrong. */
  method Enter(cur: Json, path: seq<string>, i: nat) returns (next: Option<Json>, error: PinError)
    requires i < |path|
    ensures next == Child(cur, path[i])
    ensures next.None? ==> StuckAt(cur, path, i, error)
  {
    match cur {
      case Object(fields) =>
        return Lookup(fields, path[i]), NoSuchField(path[..i + 1]);
      case Array(items) =>
        var idx := IndexOf(path[i]);
        if idx.None? || idx.value < 0 || idx.value >= |items| {
          return None, NotAnIndex(path[i]);
        }
        return Some(items[idx.value]), NotAnIndex(path[i]);
      case Scalar(_) =>
        return None, NotAContainer(path[i]);
    }
  }

  datatype SetResult = Updated(doc: Json) | Failed(error: PinError)

  /** Each node of the walk is the child of the one before it. */
  predicate IsWalk(nodes: seq<Json>, path: seq<string>) {
    && |nodes| <= |path| + 1
    && forall m :: 0 <= m < |nodes| - 1 ==> Child(nodes[m], path[m]) == Some(nodes[m + 1])
  }

  /** The nodes along a path, or what its first token to lead nowhere runs into. */
  method WalkDown(doc: Json, path: seq<string>) returns (nodes: seq<Json>, error: Option<PinError>)
    ensures error.None? <==> GetAt(doc, path).Some?
    ensures error.None? ==> |nodes| == |path| + 1 && nodes[0] == doc && IsWalk(nodes, path)
    ensures error.Some? ==>
      exists i ::
        0 <= i < |path| && GetAt(doc, path[..i]).Some? && StuckAt(GetAt(doc, path[..i]).value, path, i, error.value)
  {
    nodes := [doc];
    while |nodes| <= |path|
      invariant 1 <= |nodes| <= |path| + 1 && nodes[0] == doc && IsWalk(nodes, path)
      invariant GetAt(doc, path[..|nodes| - 1]) == Some(nodes[|nodes| - 1])
      invariant GetAt(doc, path) == GetAt(nodes[|nodes| - 1], path[|nodes| - 1..])
      decreases |path| - |nodes|
    {
      var i := |nodes| - 1;
      assert path[i..][1..] == path[i + 1..];
      GetAtMore(doc, path, i);
      var next, stuck := Enter(nodes[i], path, i);
      if next.None? {
        return nodes, Some(stuck);
      }
      nodes := nodes + [next.value];
    }
    return nodes, None;
  }

  /** setAtPointer: walks down, keeping the nodes it passes, and writes if every token resolves. */
  method SetAtPointer(doc: Json, pointer: string, v: Json) returns (r: SetResult)
    ensures r.Updated? <==> Tokens(pointer).Some? && GetAt(doc, Tokens(pointer).value).Some?
    ensures r.Updated? ==> SetAt(doc, Tokens(pointer).value, v) == Some(r.doc)
    ensures Tokens(pointer).None? ==> r == Failed(NotAPointer)
    ensures r.Failed? && Tokens(pointer).Some? ==>
      exists i ::
        var path := Tokens(pointer).value;
        0 <= i < |path| && GetAt(doc, path[..i]).Some? && StuckAt(GetAt(doc, path[..i]).value, path, i, r.error)
  {
    var tokens := ParsePointer(pointer);
    if tokens.None? {
      return Failed(NotAPointer);
    }
    var nodes, error := WalkDown(doc, tokens.value);
    if error.Some? {
      return Failed(error.value);
    }
    var merged := Rebuild(nodes, tokens.value, v);
    return Updated(merged);
  }

  /** Writing the last node replaces a child in its parent, and so on up to the document. */
  method Rebuild(nodes: seq<Json>, path: seq<string>, v: Json) returns (doc: Json)
    requires |nodes| == |path| + 1 && IsWalk(nodes, path)
    ensures SetAt(nodes[0], path, v) == Some(doc)
  {
    doc := v;
    var i := |path|;
    while i > 0
      invariant 0 <= i <= |path| && SetAt(nodes[i], path[i..], v) == Some(doc)
    {
      i := i - 1;
      assert path[i..][1..] == path[i + 1..];
      match nodes[i] {
        case Object(fields) =>
          doc := Object(fields[path[i] := doc]);
        case Array(items) =>
          doc := Array(items[IndexOf(path[i]).value := doc]);
      }
    }
    assert path[0..] == path;
  }

  method ContainsReference(text: string) returns (found: bool)
    ensures found == HasReference(text)
  {
    var i := 0;
    while i + 1 < |text|
      invariant 0 <= i && forall k :: 0 <= k < i && k < |text| - 1 ==> !(text[k] == '$' && text[k + 1] == '{')
    {
      if text[i] == '$' && text[i + 1] == '{' {
        return true;
      }
      i := i + 1;
    }
    return false;
  }

  /** The overlay loop: every pin in pointer order, stopping at the first failure. */
  method Overlay(doc: Json, order: seq<string>, pins: Pins) returns (merged: Json, failure: Option<ApplyError>)
    requires forall p :: p in order ==> p in pins
    ensures failure.None? <==> ApplyAll(doc, order, pins).Some?
    ensures failure.None? ==> Some(merged) == ApplyAll(doc, order, pins)
    ensures failure.Some? ==>
      exists k :: 0 <= k < |order| && failure.value.PinRefused? && failure.value.pointer == order[k]
        && ApplyAll(doc, order[..k], pins).Some? && ApplyAll(doc, order[..k + 1], pins).None?
        && (failure.value.error == HasReferenceSyntax <==> HasReference(pins[order[k]].text))
        && (failure.value.error == BadJson <==> !HasReference(pins[order[k]].text) && pins[order[k]].value.None?)
  {
    merged := doc;
    var i := 0;
    while i < |order|
      invariant 0 <= i <= |order| && ApplyAll(doc, order[..i], pins) == Some(merged)
    {
      var pin := pins[order[i]];
      assert order[..i + 1][..i] == order[..i];
      SetWhereGetPin(merged, order[i], pin);
      var error := None;
      var reference := ContainsReference(pin.text);
      if reference {
        error := Some(HasReferenceSyntax);
      } else if pin.value.None? {
        error := Some(BadJson);
      } else {
        var r := SetAtPointer(merged, order[i], pin.value.value);
        if r.Failed? {
          error := Some(r.error);
        } else {
          merged := r.doc;
        }
      }
      if error.Some? {
        StaysFailed(doc, order, pins, i + 1);
        return merged, Some(PinRefused(order[i], error.value));
      }
      i := i + 1;
    }
    assert order[..i] == order;
    return merged, None;
  }

  lemma SetWhereGetPin(doc: Json, pointer: string, pin: Pin)
    ensures PinStep(doc, pointer, pin).Some? <==>
      !HasReference(pin.text) && pin.value.Some? && Tokens(pointer).Some? && GetAt(doc, Tokens(pointer).value).Some?
  {
    if pin.value.Some? && Tokens(pointer).Some? {
      SetWhereGet(doc, Tokens(pointer).value, pin.value.value);
    }
  }

  lemma {:induction false} StaysFailed(doc: Json, order: seq<string>, pins: Pins, k: nat)
    requires (forall p :: p in order ==> p in pins) && k <= |order| && ApplyAll(doc, order[..k], pins).None?
    ensures ApplyAll(doc, order, pins).None?
  {
    if k == |order| {
      assert order[..k] == order;
    } else {
      assert order[..|order| - 1][..k] == order[..k];
      StaysFailed(doc, order[..|order| - 1], pins, k);
    }
  }

  class Hook {
    var settings: Option<Json>  // None when the manifest has no settings
    var manifest: Option<Json>

    constructor (settings: Option<Json>)
      ensures this.settings == settings && manifest == None
    {
      this.settings, manifest := settings, None;
    }

    /** SettingsJSON, decoded. */
    function Document(): Json
      reads this
    {
      if settings.Some? then settings.value else Object(map[])
    }

    /** What hook.json declared, before any override. */
    function ManifestDocument(): Json
      reads this
    {
      if manifest.Some? then manifest.value else Document()
    }

    /** All pins apply and the result passes the schema, or nothing changes; the manifest is remembered. */
    method ApplySettingsOverrides(pins: Pins, schemaAccepts: Json -> bool) returns (error: Option<ApplyError>)
      modifies this
      ensures error.Some? ==> settings == old(settings) && manifest == old(manifest)
      ensures ManifestDocument() == old(ManifestDocument())
      ensures forall order | pins != map[] && IsOrder(order, pins.Keys) ::
        && (error.None? <==>
          var merged := ApplyAll(old(Document()), order, pins); merged.Some? && schemaAccepts(merged.value))
        && (error.None? ==> ApplyAll(old(Document()), order, pins) == Some(Document()))
      ensures pins == map[] ==> error.None? && settings == old(settings) && manifest == old(manifest)
    {
      if |pins| == 0 {
        return None;
      }
      var order := SortedPointers(pins.Keys);
      forall o | IsOrder(o, pins.Keys) ensures o == order {
        OrderUnique(o, order, pins.Keys);
      }
      var merged, failure := Overlay(Document(), order, pins);
      if failure.Some? {
        return failure;
      }
      OrderEmpty(order, pins.Keys);
      assert order != [];
      if settings.None? {
        NothingToPin(order, pins);
      }
      var prev := settings;
      settings := Some(merged);
      if !schemaAccepts(merged) {
        settings := prev;
        return Some(SchemaRefused);
      }
      if manifest.None? {
        manifest := prev;
      }
      return None;
    }
  }

  /** An empty document has nothing to pin. */
  lemma NothingToPin(order: seq<string>, pins: Pins)
    requires order != [] && forall p :: p in order ==> p in pins
    ensures ApplyAll(Object(map[]), order, pins).None?
  {
    var first := order[..1];
    assert first[..0] == [] && order[0] in order;
    SetWhereGetPin(Object(map[]), order[0], pins[order[0]]);
    StaysFailed(Object(map[]), order, pins, 1);
  }
}
