/** From a sysrepo tree to JSON (src/gnmi/encode/json_ietf.cpp). */
module Json {
  import opened Seqs
  import opened Gnmi
  import opened Decimal

  // ---------------------------------------------------------------- sysrepo trees

  /** The integer types that JSON carries as numbers. */
  datatype Width = U8 | U16 | U32 | I8 | I16 | I32

  /** The leaf types whose value sysrepo hands out as text. */
  datatype CharKind = STRING | IDENTITYREF | INSTANCEID | BINARY | BITS | ENUM

  /** A leaf value.  Decimal64 holds the text std::to_string makes of the double. */
  datatype Value =
    | Small(width: Width, n: int)
    | Wide(signed: bool, wide: int)
    | Chars(kind: CharKind, s: string)
    | Boolean(b: bool)
    | Decimal64(text: string)

  /** A node of a subtree read from sysrepo.  `Unsupported` stands for ANYDATA, ANYXML
      and every type the encoder does not know. */
  datatype Node =
    | Leaf(name: string, value: Value)
    | Empty(name: string)
    | List(name: string, children: seq<Node>)
    | Container(name: string, presence: bool, children: seq<Node>)
    | Unsupported(name: string)

  function Kids(t: Node): seq<Node> {
    if t.List? || t.Container? then t.children else []
  }

  // ---------------------------------------------------------------- JSON values

  datatype Json =
    | Null
    | Number(n: int)
    | Text(s: string)
    | Array(items: seq<Json>)
    | Object(fields: map<string, Json>)

  /** What `val[name]` finds: a missing member reads as null. */
  function Field(val: Json, name: string): Json {
    if val.Object? && name in val.fields then val.fields[name] else Null
  }

  /** `val[name] = x`, for a value that is still null or already an object. */
  function SetField(val: Json, name: string, x: Json): Json
    requires val.Null? || val.Object?
  {
    Object((if val.Object? then val.fields else map[])[name := x])
  }

  /** `val[name].append(x)`: jsoncpp appends to null and to arrays, and throws otherwise. */
  function AppendField(val: Json, name: string, x: Json): Outcome<Json>
    requires val.Null? || val.Object?
  {
    match Field(val, name)
    case Null => Ok(SetField(val, name, Array([x])))
    case Array(items) => Ok(SetField(val, name, Array(items + [x])))
    case _ => Throw(Other)
  }

  function ScalarJson(v: Value): Json {
    match v
    case Small(_, n) => Number(n)
    case Wide(_, n) => Text(PrintInt(n))
    case Chars(_, s) => Text(s)
    case Boolean(b) => Text(if b then "true" else "false")
    case Decimal64(text) => Text(text)
  }

  // ---------------------------------------------------------------- the encoder

  /** One round of the sibling loop: what child `c` does to the value built so far. */
  function Step(val: Json, c: Node): (r: Outcome<Json>)
    requires val.Null? || val.Object?
    ensures r.Ok? ==> r.value.Object?
    decreases c, 0
  {
    match c
    case Leaf(name, value) => Ok(SetField(val, name, ScalarJson(value)))
    case Empty(name) => AppendField(val, name, Text("null"))
    case List(name, children) =>
      var sub :- Encode(children);
      AppendField(val, name, sub)
    case Container(name, _, children) =>
      var sub :- Encode(children);
      Ok(SetField(val, name, sub))
    case Unsupported(_) => Throw(InvalidArgument)
  }

  /** The value the loop has built after all of `cs`, or the exception it ended with. */
  function Encode(cs: seq<Node>): (r: Outcome<Json>)
    ensures r.Ok? ==> if cs == [] then r.value.Null? else r.value.Object?
    decreases cs
  {
    if cs == [] then Ok(Null)
    else
      var val :- Encode(cs[..|cs| - 1]);
      Step(val, cs[|cs| - 1])
  }

  lemma {:induction false} EncodeStops(cs: seq<Node>, i: nat)
    requires i <= |cs| && Encode(cs[..i]).Throw?
    ensures Encode(cs) == Encode(cs[..i])
    decreases |cs| - i
  {
    if i < |cs| {
      assert cs[..i + 1][..i] == cs[..i];
      EncodeStops(cs, i + 1);
    } else {
      assert cs[..i] == cs;
    }
  }

  /** json_tree: fill one JSON value, child after child. */
  method JsonTree(tree: Node) returns (r: Outcome<Json>)
    ensures r == Encode(Kids(tree))
    decreases tree
  {
    var val := Null;
    var kids := Kids(tree);
    for i := 0 to |kids|
      invariant Encode(kids[..i]) == Ok(val)
    {
      var iter := kids[i];
      assert kids[..i + 1][..i] == kids[..i];
      var next: Outcome<Json>;
      match iter {
        case Leaf(name, value) => next := Ok(SetField(val, name, ScalarJson(value)));
        case Empty(name) => next := AppendField(val, name, Text("null"));
        case List(name, _) =>
          next := JsonTree(iter);
          if next.Ok? {
            next := AppendField(val, name, next.value);
          }
        case Container(name, _, _) =>
          next := JsonTree(iter);
          if next.Ok? {
            next := Ok(SetField(val, name, next.value));
          }
        case Unsupported(_) => next := Throw(InvalidArgument);
      }
      assert next == Encode(kids[..i + 1]);
      if next.Throw? {
        EncodeStops(kids, i + 1);
        return next;
      }
      val := next.value;
    }
    assert kids[..|kids|] == kids;
    r := Ok(val);
  }

  // ---------------------------------------------------------------- grouping by name

  /** The children called `name`, in sibling order. */
  function Named(name: string, cs: seq<Node>): seq<Node> {
    if cs == [] then []
    else
      var c := cs[|cs| - 1];
      var g := Named(name, cs[..|cs| - 1]);
      if c.name == name then g + [c] else g
  }

  function Names(cs: seq<Node>): set<string> {
    set i | 0 <= i < |cs| :: cs[i].name
  }

  /** Lists and empty leaves are appended to an array; the other kinds are assigned. */
  predicate Appends(c: Node) {
    c.List? || c.Empty?
  }

  /** No name is used both by appended and by assigned children. */
  predicate Uniform(cs: seq<Node>) {
    forall i, j :: 0 <= i < j < |cs| && cs[i].name == cs[j].name ==> Appends(cs[i]) == Appends(cs[j])
  }

  /** The child by itself can be encoded. */
  predicate Encodable(c: Node) {
    !c.Unsupported? && Encode(Kids(c)).Ok?
  }

  /** The JSON of one child by itself. */
  function Encoded(c: Node): Json
    requires Encodable(c)
  {
    match c
    case Leaf(_, value) => ScalarJson(value)
    case Empty(_) => Text("null")
    case _ => Encode(Kids(c)).value
  }

  predicate AllEncodable(cs: seq<Node>) {
    forall i :: 0 <= i < |cs| ==> Encodable(cs[i])
  }

  function EncodedAll(cs: seq<Node>): (js: seq<Json>)
    requires AllEncodable(cs)
    ensures |js| == |cs|
    ensures forall i :: 0 <= i < |cs| ==> js[i] == Encoded(cs[i])
  {
    seq(|cs|, i requires 0 <= i < |cs| => Encoded(cs[i]))
  }

  /** The member that a group of equally named children makes. */
  function Group(g: seq<Node>): Json
    requires g != [] && AllEncodable(g)
  {
    if Appends(g[0]) then Array(EncodedAll(g)) else Encoded(g[|g| - 1])
  }

  /** The children grouped by name: the declarative reading of json_tree. */
  function GroupBy(cs: seq<Node>): Json
    requires AllEncodable(cs)
  {
    if cs == [] then Null
    else
      Object(map name | name in Names(cs) ::
        InNames(name, cs);
        NamedEncodable(name, cs);
        Group(Named(name, cs)))
  }

  // ---------------------------------------------------------------- groups

  lemma {:induction false} NamedAt(name: string, cs: seq<Node>, k: nat) returns (i: nat)
    requires k < |Named(name, cs)|
    ensures i < |cs| && cs[i] == Named(name, cs)[k] && cs[i].name == name
  {
    var front := Named(name, cs[..|cs| - 1]);
    if k < |front| {
      i := NamedAt(name, cs[..|cs| - 1], k);
    } else {
      i := |cs| - 1;
    }
  }

  lemma {:induction false} NamedHas(name: string, cs: seq<Node>, i: nat) returns (k: nat)
    requires i < |cs| && cs[i].name == name
    ensures k < |Named(name, cs)| && Named(name, cs)[k] == cs[i]
  {
    if i < |cs| - 1 {
      k := NamedHas(name, cs[..|cs| - 1], i);
    } else {
      k := |Named(name, cs)| - 1;
    }
  }

  lemma InNames(name: string, cs: seq<Node>)
    ensures name in Names(cs) <==> Named(name, cs) != []
  {
    if name in Names(cs) {
      var i :| 0 <= i < |cs| && cs[i].name == name;
      var k := NamedHas(name, cs, i);
    }
    if Named(name, cs) != [] {
      var i := NamedAt(name, cs, 0);
    }
  }

  lemma {:induction false} NamedEncodable(name: string, cs: seq<Node>)
    requires AllEncodable(cs)
    ensures AllEncodable(Named(name, cs))
  {
    if cs != [] {
      NamedEncodable(name, cs[..|cs| - 1]);
    }
  }

  lemma NamedSnoc(name: string, init: seq<Node>, c: Node)
    ensures Named(name, init + [c]) == if c.name == name then Named(name, init) + [c] else Named(name, init)
  {
    assert (init + [c])[..|init + [c]| - 1] == init;
  }

  lemma GroupByAt(cs: seq<Node>, name: string)
    requires AllEncodable(cs) && name in Names(cs)
    ensures Named(name, cs) != [] && AllEncodable(Named(name, cs))
    ensures GroupBy(cs).Object? && GroupBy(cs).fields.Keys == Names(cs)
    ensures GroupBy(cs).fields[name] == Group(Named(name, cs))
  {
    InNames(name, cs);
    NamedEncodable(name, cs);
  }

  // ---------------------------------------------------------------- when the loop succeeds

  /** A container without children: the only assigned child whose JSON is null. */
  predicate Hollow(c: Node) {
    c.Container? && c.children == []
  }

  /** Child `c` can come after the children `g` of its name: what is appended must find an
      array or null there, so the last of `g` was appended too or was a hollow container. */
  predicate Fits(g: seq<Node>, c: Node) {
    Appends(c) && g != [] ==> Appends(g[|g| - 1]) || Hollow(g[|g| - 1])
  }

  predicate FitsAt(cs: seq<Node>, j: nat)
    requires j < |cs|
  {
    Fits(Named(cs[j].name, cs[..j]), cs[j])
  }

  predicate Orderly(cs: seq<Node>) {
    forall j :: 0 <= j < |cs| ==> FitsAt(cs, j)
  }

  /** The member that equally named children `g` leave: assigned children overwrite it,
      appended ones extend its array. */
  function Final(g: seq<Node>): Json
    requires AllEncodable(g)
  {
    if g == [] then Null
    else
      var c := g[|g| - 1];
      if !Appends(c) then Encoded(c)
      else
        match Final(g[..|g| - 1])
        case Array(items) => Array(items + [Encoded(c)])
        case _ => Array([Encoded(c)])
  }

  lemma {:induction false} FinalKind(g: seq<Node>)
    requires AllEncodable(g)
    ensures Final(g).Null? <==> g == [] || Hollow(g[|g| - 1])
    ensures Final(g).Array? <==> g != [] && Appends(g[|g| - 1])
  {
  }

  lemma EncodableSnoc(init: seq<Node>, c: Node)
    ensures AllEncodable(init + [c]) <==> AllEncodable(init) && Encodable(c)
  {
    var cs := init + [c];
    assert forall i :: 0 <= i < |init| ==> cs[i] == init[i];
    assert cs[|init|] == c;
  }

  /** One round of the loop, on a value whose member for `c` is what `g` left. */
  lemma StepOnFinal(val: Json, g: seq<Node>, c: Node)
    requires val.Null? || val.Object?
    requires AllEncodable(g) && Encodable(c) && Field(val, c.name) == Final(g)
    ensures AllEncodable(g + [c])
    ensures Step(val, c) == if Fits(g, c) then Ok(SetField(val, c.name, Final(g + [c]))) else Throw(Other)
  {
    EncodableSnoc(g, c);
    FinalKind(g);
    Unsnoc(g, c);
  }

  lemma {:induction false} OkIsEncodable(cs: seq<Node>)
    requires Encode(cs).Ok?
    ensures AllEncodable(cs)
  {
    if cs != [] {
      OkIsEncodable(cs[..|cs| - 1]);
      assert Encodable(cs[|cs| - 1]);
    }
  }

  /** When the loop succeeds, each member is what the children of its name leave, in sibling
      order: entries appended after the last assignment, or that assignment. */
  lemma {:induction false} MemberIsFinal(cs: seq<Node>, name: string)
    requires Encode(cs).Ok?
    ensures AllEncodable(Named(name, cs))
    ensures Field(Encode(cs).value, name) == Final(Named(name, cs))
  {
    OkIsEncodable(cs);
    NamedEncodable(name, cs);
    if cs != [] {
      var front, c := cs[..|cs| - 1], cs[|cs| - 1];
      MemberIsFinal(front, name);
      MemberIsFinal(front, c.name);
      assert Encodable(c);
      StepOnFinal(Encode(front).value, Named(c.name, front), c);
    }
  }

  lemma FitsInFront(cs: seq<Node>, j: nat)
    requires j < |cs| - 1
    ensures FitsAt(cs[..|cs| - 1], j) <==> FitsAt(cs, j)
  {
    TakeTake(cs, j);
  }

  lemma OrderlySnoc(cs: seq<Node>)
    requires cs != []
    ensures Orderly(cs) <==> Orderly(cs[..|cs| - 1]) && FitsAt(cs, |cs| - 1)
  {
    var front := cs[..|cs| - 1];
    if Orderly(cs) {
      forall j | 0 <= j < |front|
        ensures FitsAt(front, j)
      {
        FitsInFront(cs, j);
      }
    }
    if Orderly(front) && FitsAt(cs, |front|) {
      forall j | 0 <= j < |cs|
        ensures FitsAt(cs, j)
      {
        if j < |front| {
          FitsInFront(cs, j);
        }
      }
    }
  }

  /** The loop succeeds if and only if every child can be encoded by itself, and whatever is
      appended finds its nearest earlier namesake appended too or a hollow container.  Where
      only the second condition fails, jsoncpp's exception ends the loop. */
  lemma {:induction false} LoopSucceeds(cs: seq<Node>)
    ensures Encode(cs).Ok? <==> AllEncodable(cs) && Orderly(cs)
    ensures AllEncodable(cs) && !Orderly(cs) ==> Encode(cs) == Throw(Other)
  {
    if cs != [] {
      var front, c := cs[..|cs| - 1], cs[|cs| - 1];
      LoopSucceeds(front);
      OrderlySnoc(cs);
      SplitLast(cs);
      EncodableSnoc(front, c);
      if Encode(front).Ok? && Encodable(c) {
        MemberIsFinal(front, c.name);
        StepOnFinal(Encode(front).value, Named(c.name, front), c);
      }
    }
  }

  /** The members are those of the names that occur. */
  lemma {:induction false} FieldsAreNames(cs: seq<Node>)
    requires Encode(cs).Ok? && cs != []
    ensures Encode(cs).value.fields.Keys == Names(cs)
  {
    var front, c := cs[..|cs| - 1], cs[|cs| - 1];
    assert Names(cs) == Names(front) + {c.name} by {
      assert forall i :: 0 <= i < |front| ==> front[i] == cs[i];
      assert cs[|front|] == c;
    }
    if front != [] {
      FieldsAreNames(front);
    }
  }

  // ---------------------------------------------------------------- when the loop groups

  predicate AllAppend(g: seq<Node>) {
    forall i :: 0 <= i < |g| ==> Appends(g[i])
  }

  lemma {:induction false} FinalItems(g: seq<Node>)
    requires AllEncodable(g) && g != []
    ensures AllAppend(g) ==> Final(g) == Array(EncodedAll(g))
    ensures Final(g).Array? ==> |Final(g).items| <= |g| && (|Final(g).items| == |g| ==> AllAppend(g))
  {
    var front, c := g[..|g| - 1], g[|g| - 1];
    FinalKind(front);
    FinalKind(g);
    if front != [] {
      FinalItems(front);
      assert EncodedAll(g) == EncodedAll(front) + [Encoded(c)];
    } else {
      assert EncodedAll(g) == [Encoded(c)];
    }
  }

  /** Equally named children that leave their group: all appended, or first and last assigned. */
  predicate Groups(g: seq<Node>)
    requires g != []
  {
    AllAppend(g) || (!Appends(g[0]) && !Appends(g[|g| - 1]))
  }

  lemma FinalIsGroup(g: seq<Node>)
    requires AllEncodable(g) && g != []
    ensures Final(g) == Group(g) <==> Groups(g)
  {
    FinalItems(g);
    FinalKind(g);
  }

  /** The loop computes the grouping if and only if no append fails and each name's children
      leave their group. */
  lemma {:induction false} GroupingExactly(cs: seq<Node>)
    requires AllEncodable(cs)
    ensures Encode(cs) == Ok(GroupBy(cs)) <==>
            Orderly(cs) && forall name :: name in Names(cs) ==> Named(name, cs) != [] && Groups(Named(name, cs))
  {
    LoopSucceeds(cs);
    if cs != [] && Orderly(cs) {
      FieldsAreNames(cs);
      var m, n := Encode(cs).value.fields, GroupBy(cs).fields;
      forall name | name in Names(cs)
        ensures Named(name, cs) != [] && (m[name] == n[name] <==> Groups(Named(name, cs)))
      {
        GroupByAt(cs, name);
        MemberIsFinal(cs, name);
        FinalIsGroup(Named(name, cs));
      }
      assert n.Keys == Names(cs);
      assert m == n <==> forall name :: name in Names(cs) ==> m[name] == n[name];
    }
  }

  lemma UniformGroup(cs: seq<Node>, name: string)
    requires Uniform(cs) && Named(name, cs) != []
    ensures Groups(Named(name, cs))
  {
    var g := Named(name, cs);
    forall k | 0 <= k < |g|
      ensures Appends(g[k]) == Appends(g[0])
    {
      var i := NamedAt(name, cs, k);
      var h := NamedAt(name, cs, 0);
    }
  }

  lemma {:induction false} UniformIsOrderly(cs: seq<Node>)
    requires Uniform(cs)
    ensures Orderly(cs)
  {
    forall j | 0 <= j < |cs|
      ensures FitsAt(cs, j)
    {
      var g := Named(cs[j].name, cs[..j]);
      if g != [] {
        var i := NamedAt(cs[j].name, cs[..j], |g| - 1);
        assert cs[i].name == cs[j].name;
      }
    }
  }

  /** Where each name is used by appended or by assigned children only, the in-place loop
      computes the grouping, and throws only for a child that cannot be encoded by itself. */
  lemma {:induction false} GroupingFold(cs: seq<Node>)
    requires Uniform(cs)
    ensures Encode(cs).Ok? <==> AllEncodable(cs)
    ensures Encode(cs).Ok? ==> Encode(cs).value == GroupBy(cs)
  {
    LoopSucceeds(cs);
    UniformIsOrderly(cs);
    if AllEncodable(cs) {
      forall name | name in Names(cs)
        ensures Named(name, cs) != [] && Groups(Named(name, cs))
      {
        InNames(name, cs);
        UniformGroup(cs, name);
      }
      GroupingExactly(cs);
    }
  }

  /** A witness: a leaf and then a list of one name. */
  lemma MixedNamesThrow()
    ensures var cs := [Leaf("a", Boolean(true)), List("a", [])];
            !Uniform(cs) && AllEncodable(cs) && !Orderly(cs) && Encode(cs) == Throw(Other)
  {
    var cs := [Leaf("a", Boolean(true)), List("a", [])];
    assert Named("a", []) == [];
    assert cs[..1] == [cs[0]] && cs[..1][..0] == [];
    assert Named(cs[1].name, cs[..1]) == [cs[0]];
    assert !FitsAt(cs, 1) && cs[0].name == cs[1].name;
    assert Encode([]) == Ok(Null);
    LoopSucceeds(cs);
  }
}
