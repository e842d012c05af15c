/** A schema-guided JSON reader, and the proof that it inverts the encoder. */
module JsonRoundTrip {
  import opened Seqs
  import opened Gnmi
  import opened Decimal
  import opened Json

  datatype LeafType = SmallT(width: Width) | WideT(signed: bool) | CharsT(kind: CharKind) | BooleanT

  /** What the YANG schema says about one kind of child. */
  datatype Schema =
    | LeafS(name: string, ty: LeafType)
    | EmptyS(name: string)
    | ListS(name: string, kids: seq<Schema>)
    | ContainerS(name: string, presence: bool, kids: seq<Schema>)

  predicate Typed(ty: LeafType, v: Value) {
    match ty
    case SmallT(width) => v.Small? && v.width == width
    case WideT(signed) => v.Wide? && v.signed == signed
    case CharsT(kind) => v.Chars? && v.kind == kind
    case BooleanT => v.Boolean?
  }

  /** The child `c` is an instance of schema node `s`. */
  predicate ConformsOne(s: Schema, c: Node)
    decreases s, 0
  {
    match s
    case LeafS(_, ty) => c.Leaf? && Typed(ty, c.value)
    case EmptyS(_) => c.Empty?
    case ListS(_, kids) => c.List? && Conforms(kids, c.children)
    case ContainerS(_, presence, kids) => c.Container? && c.presence == presence && Conforms(kids, c.children)
  }

  /** The children `g` are what schema node `s` allows under its name. */
  predicate ConformsGroup(s: Schema, g: seq<Node>)
    decreases s, 1
  {
    && (s.ListS? || |g| <= 1)
    && forall i :: 0 <= i < |g| ==> g[i].name == s.name && ConformsOne(s, g[i])
  }

  predicate Distinct(ss: seq<Schema>) {
    forall i, j :: 0 <= i < j < |ss| ==> ss[i].name != ss[j].name
  }

  predicate Declared(ss: seq<Schema>, c: Node) {
    exists i :: 0 <= i < |ss| && ss[i].name == c.name
  }

  /** The children `cs` are instances of the schema nodes `ss`, in any sibling order. */
  predicate Conforms(ss: seq<Schema>, cs: seq<Node>)
    decreases ss
  {
    && Distinct(ss)
    && (forall i :: 0 <= i < |cs| ==> Declared(ss, cs[i]))
    && (forall i :: 0 <= i < |ss| ==> ConformsGroup(ss[i], Named(ss[i].name, cs)))
  }

  // ---------------------------------------------------------------- reading

  function ReadValue(ty: LeafType, j: Json): Option<Value> {
    match ty
    case SmallT(width) => if j.Number? then Some(Small(width, j.n)) else None
    case WideT(signed) =>
      if !j.Text? then None
      else
        (match ReadInt(j.s)
         case None => None
         case Some(n) => Some(Wide(signed, n)))
    case CharsT(kind) => if j.Text? then Some(Chars(kind, j.s)) else None
    case BooleanT =>
      if j == Text("true") then Some(Boolean(true))
      else if j == Text("false") then Some(Boolean(false))
      else None
  }

  /** The list instances held by an array. */
  function ReadEntries(name: string, kids: seq<Schema>, items: seq<Json>): Option<seq<Node>>
    decreases kids, 1, |items|
  {
    if items == [] then Some([])
    else
      match ReadEntries(name, kids, items[..|items| - 1])
      case None => None
      case Some(front) =>
        match ReadKids(kids, items[|items| - 1])
        case None => None
        case Some(children) => Some(front + [List(name, children)])
  }

  /** The children that member `j` of an object holds for schema node `s`. */
  function ReadField(s: Schema, j: Json): Option<seq<Node>>
    decreases s, 0
  {
    match s
    case LeafS(name, ty) =>
      (match ReadValue(ty, j)
       case None => None
       case Some(v) => Some([Leaf(name, v)]))
    case EmptyS(name) => if j == Array([Text("null")]) then Some([Empty(name)]) else None
    case ListS(name, kids) => if j.Array? then ReadEntries(name, kids, j.items) else None
    case ContainerS(name, presence, kids) =>
      (match ReadKids(kids, j)
       case None => None
       case Some(children) => Some([Container(name, presence, children)]))
  }

  /** The children that value `j` holds, listed in schema order. */
  function ReadKids(ss: seq<Schema>, j: Json): Option<seq<Node>>
    decreases ss, 0
  {
    if ss == [] then Some([])
    else
      match ReadKids(ss[..|ss| - 1], j)
      case None => None
      case Some(front) =>
        var s := ss[|ss| - 1];
        if !j.Object? || s.name !in j.fields then Some(front)
        else
          match ReadField(s, j.fields[s.name])
          case None => None
          case Some(g) => Some(front + g)
  }

  // ---------------------------------------------------------------- schema order

  function ArrangeOne(s: Schema, c: Node): Node
    decreases s, 0
  {
    match c
    case List(name, children) => if s.ListS? then List(name, Arrange(s.kids, children)) else c
    case Container(name, presence, children) =>
      if s.ContainerS? then Container(name, presence, Arrange(s.kids, children)) else c
    case _ => c
  }

  function ArrangeGroup(s: Schema, g: seq<Node>): (r: seq<Node>)
    ensures |r| == |g|
    decreases s, 1, |g|
  {
    if g == [] then [] else ArrangeGroup(s, g[..|g| - 1]) + [ArrangeOne(s, g[|g| - 1])]
  }

  /** The same children in schema order, at every level; each name keeps its own order. */
  function Arrange(ss: seq<Schema>, cs: seq<Node>): seq<Node>
    decreases ss, 0
  {
    if ss == [] then []
    else
      var s := ss[|ss| - 1];
      Arrange(ss[..|ss| - 1], cs) + ArrangeGroup(s, Named(s.name, cs))
  }

  // ---------------------------------------------------------------- the round trip

  lemma ReadScalar(ty: LeafType, v: Value)
    requires Typed(ty, v)
    ensures ReadValue(ty, ScalarJson(v)) == Some(v)
  {
    if v.Wide? {
      ReadPrintInt(v.wide);
    }
  }

  /** The schema node of a conforming child. */
  lemma {:induction false} SchemaOf(ss: seq<Schema>, cs: seq<Node>, i: nat) returns (k: nat)
    requires Conforms(ss, cs) && i < |cs|
    ensures k < |ss| && ss[k].name == cs[i].name && ConformsOne(ss[k], cs[i])
  {
    assert Declared(ss, cs[i]);
    k :| 0 <= k < |ss| && ss[k].name == cs[i].name;
    var h := NamedHas(ss[k].name, cs, i);
    assert ConformsGroup(ss[k], Named(ss[k].name, cs));
  }

  lemma OneKind(s: Schema, c: Node)
    requires ConformsOne(s, c)
    ensures Appends(c) <==> s.ListS? || s.EmptyS?
  {
  }

  lemma SameSchema(ss: seq<Schema>, i: nat, j: nat)
    requires Distinct(ss) && i < |ss| && j < |ss| && ss[i].name == ss[j].name
    ensures i == j
  {
  }

  lemma ConformingIsUniform(ss: seq<Schema>, cs: seq<Node>)
    requires Conforms(ss, cs)
    ensures Uniform(cs)
  {
    forall i, j | 0 <= i < j < |cs| && cs[i].name == cs[j].name
      ensures Appends(cs[i]) == Appends(cs[j])
    {
      var h := SchemaOf(ss, cs, i);
      var k := SchemaOf(ss, cs, j);
      SameSchema(ss, h, k);
      OneKind(ss[h], cs[i]);
      OneKind(ss[k], cs[j]);
    }
  }

  /** A conforming tree is always encodable. */
  lemma {:induction false} ConformingIsEncodable(ss: seq<Schema>, cs: seq<Node>)
    requires Conforms(ss, cs)
    ensures AllEncodable(cs)
    decreases ss
  {
    forall i | 0 <= i < |cs|
      ensures Encodable(cs[i])
    {
      var k := SchemaOf(ss, cs, i);
      if cs[i].List? || cs[i].Container? {
        ConformingIsEncodable(ss[k].kids, cs[i].children);
        ConformingIsUniform(ss[k].kids, cs[i].children);
        GroupingFold(cs[i].children);
      }
    }
  }

  lemma EncodedFront(g: seq<Node>)
    requires AllEncodable(g) && g != []
    ensures EncodedAll(g)[..|g| - 1] == EncodedAll(g[..|g| - 1])
  {
  }

  /** The round trip of the last entry. */
  lemma {:induction false} ReadEntryBack(name: string, kids: seq<Schema>, g: seq<Node>)
    requires ConformsGroup(ListS(name, kids), g) && AllEncodable(g) && g != []
    ensures g[|g| - 1].List? && g[|g| - 1].name == name
    ensures ReadKids(kids, EncodedAll(g)[|g| - 1]) == Some(Arrange(kids, g[|g| - 1].children))
    decreases kids, 3, |g|
  {
    assert ConformsOne(ListS(name, kids), g[|g| - 1]);
    RoundTrip(kids, g[|g| - 1].children);
  }

  lemma {:induction false} ReadEntriesBack(name: string, kids: seq<Schema>, g: seq<Node>)
    requires ConformsGroup(ListS(name, kids), g) && AllEncodable(g)
    ensures ReadEntries(name, kids, EncodedAll(g)) == Some(ArrangeGroup(ListS(name, kids), g))
    decreases kids, 4, |g|
  {
    if g != [] {
      EncodedFront(g);
      ReadEntriesBack(name, kids, g[..|g| - 1]);
      ReadEntryBack(name, kids, g);
    }
  }

  lemma GroupOfOne(s: Schema, c: Node)
    requires ConformsOne(s, c) && Encodable(c) && !s.ListS? && AllEncodable([c])
    ensures Group([c]) == if s.EmptyS? then Array([Text("null")]) else Encoded(c)
  {
    OneKind(s, c);
    if s.EmptyS? {
      assert EncodedAll([c]) == [Text("null")];
    }
  }

  lemma {:induction false} ReadGroupBack(s: Schema, g: seq<Node>)
    requires ConformsGroup(s, g) && g != [] && AllEncodable(g)
    ensures ReadField(s, Group(g)) == Some(ArrangeGroup(s, g))
    decreases s, 2
  {
    OneKind(s, g[0]);
    if s.ListS? {
      ReadEntriesBack(s.name, s.kids, g);
    } else {
      assert g == [g[0]];
      GroupOfOne(s, g[0]);
      ReadOneBack(s, g[0]);
      ArrangeSingle(s, g[0]);
    }
  }

  lemma {:induction false} ReadOneBack(s: Schema, c: Node)
    requires ConformsOne(s, c) && c.name == s.name && Encodable(c) && !s.ListS?
    ensures ReadField(s, if s.EmptyS? then Array([Text("null")]) else Encoded(c)) == Some([ArrangeOne(s, c)])
    decreases s, 1
  {
    match s {
      case LeafS(_, ty) => ReadScalar(ty, c.value);
      case EmptyS(_) =>
      case ContainerS(_, _, kids) => RoundTrip(kids, c.children);
    }
  }

  lemma ArrangeSingle(s: Schema, c: Node)
    ensures ArrangeGroup(s, [c]) == [ArrangeOne(s, c)]
  {
    assert [c][..0] == [];
    assert ArrangeGroup(s, []) == [];
  }

  lemma {:induction false} ReadKidsBack(ss: seq<Schema>, cs: seq<Node>)
    requires forall i :: 0 <= i < |ss| ==> ConformsGroup(ss[i], Named(ss[i].name, cs))
    requires AllEncodable(cs)
    ensures ReadKids(ss, GroupBy(cs)) == Some(Arrange(ss, cs))
    decreases ss, 1
  {
    if ss != [] {
      var s := ss[|ss| - 1];
      var g := Named(s.name, cs);
      ReadKidsBack(ss[..|ss| - 1], cs);
      InNames(s.name, cs);
      NamedEncodable(s.name, cs);
      if g != [] {
        GroupByAt(cs, s.name);
        ReadGroupBack(s, g);
      } else {
        EmptyRight(Arrange(ss[..|ss| - 1], cs));
      }
    }
  }

  /** Tree/JSON round trip: every conforming tree is encodable, and reading its JSON with
      the schema gives back the tree, its children listed in schema order. */
  lemma {:induction false} RoundTrip(ss: seq<Schema>, cs: seq<Node>)
    requires Conforms(ss, cs)
    ensures Encode(cs).Ok? && ReadKids(ss, Encode(cs).value) == Some(Arrange(ss, cs))
    decreases ss, 2
  {
    ConformingIsUniform(ss, cs);
    ConformingIsEncodable(ss, cs);
    GroupingFold(cs);
    ReadKidsBack(ss, cs);
  }

  /** The children stand in schema order, at every level. */
  predicate Ordered(ss: seq<Schema>, cs: seq<Node>)
    decreases ss, 0
  {
    if ss == [] then cs == []
    else
      var s := ss[|ss| - 1];
      var g := Named(s.name, cs);
      && |g| <= |cs|
      && cs[|cs| - |g|..] == g
      && Ordered(ss[..|ss| - 1], cs[..|cs| - |g|])
      && (s.ListS? || s.ContainerS? ==> forall i :: 0 <= i < |g| ==> Ordered(s.kids, Kids(g[i])))
  }

  lemma {:induction false} NamedSkips(name: string, a: seq<Node>, g: seq<Node>)
    requires forall i :: 0 <= i < |g| ==> g[i].name != name
    ensures Named(name, a + g) == Named(name, a)
  {
    if g == [] {
      EmptyRight(a);
    } else {
      var front, c := g[..|g| - 1], g[|g| - 1];
      assert a + g == (a + front) + [c];
      NamedSnoc(name, a + front, c);
      NamedSkips(name, a, front);
    }
  }

  lemma {:induction false} ArrangeByGroups(ss: seq<Schema>, a: seq<Node>, b: seq<Node>)
    requires forall i :: 0 <= i < |ss| ==> Named(ss[i].name, a) == Named(ss[i].name, b)
    ensures Arrange(ss, a) == Arrange(ss, b)
    decreases ss
  {
    if ss != [] {
      ArrangeByGroups(ss[..|ss| - 1], a, b);
    }
  }

  lemma {:induction false} ArrangeGroupStays(s: Schema, g: seq<Node>)
    requires forall i :: 0 <= i < |g| ==> ArrangeOne(s, g[i]) == g[i]
    ensures ArrangeGroup(s, g) == g
  {
    if g != [] {
      ArrangeGroupStays(s, g[..|g| - 1]);
      SplitLast(g);
    }
  }

  lemma {:induction false} OrderedGroupStays(s: Schema, g: seq<Node>)
    requires ConformsGroup(s, g)
    requires s.ListS? || s.ContainerS? ==> forall i :: 0 <= i < |g| ==> Ordered(s.kids, Kids(g[i]))
    ensures ArrangeGroup(s, g) == g
    decreases s, 2
  {
    forall i | 0 <= i < |g|
      ensures ArrangeOne(s, g[i]) == g[i]
    {
      OrderedOneStays(s, g[i]);
    }
    ArrangeGroupStays(s, g);
  }

  lemma OrderedOneStays(s: Schema, c: Node)
    requires ConformsOne(s, c)
    requires s.ListS? || s.ContainerS? ==> Ordered(s.kids, Kids(c))
    ensures ArrangeOne(s, c) == c
    decreases s, 1
  {
    if s.ListS? || s.ContainerS? {
      OrderedStays(s.kids, c.children);
    }
  }

  lemma FrontKeepsGroups(ss: seq<Schema>, front: seq<Node>, g: seq<Node>)
    requires Distinct(ss) && ss != []
    requires forall i :: 0 <= i < |g| ==> g[i].name == ss[|ss| - 1].name
    ensures var init := ss[..|ss| - 1];
            && Distinct(init)
            && (forall i :: 0 <= i < |init| ==> init[i] == ss[i])
            && (forall i :: 0 <= i < |init| ==> Named(init[i].name, front + g) == Named(init[i].name, front))
  {
    var init := ss[..|ss| - 1];
    forall i | 0 <= i < |init|
      ensures Named(init[i].name, front + g) == Named(init[i].name, front)
    {
      assert init[i] == ss[i];
      NamedSkips(init[i].name, front, g);
    }
  }

  /** A conforming tree in schema order is its own arrangement. */
  lemma {:induction false} OrderedStays(ss: seq<Schema>, cs: seq<Node>)
    requires Distinct(ss) && Ordered(ss, cs)
    requires forall i :: 0 <= i < |ss| ==> ConformsGroup(ss[i], Named(ss[i].name, cs))
    ensures Arrange(ss, cs) == cs
    decreases ss, 1
  {
    if ss != [] {
      var init, s := ss[..|ss| - 1], ss[|ss| - 1];
      var g := Named(s.name, cs);
      var front := cs[..|cs| - |g|];
      SplitAt(cs, |cs| - |g|);
      FrontKeepsGroups(ss, front, g);
      ArrangeByGroups(init, cs, front);
      OrderedStays(init, front);
      OrderedGroupStays(s, g);
    }
  }

  /** A conforming tree whose children stand in schema order is recovered exactly. */
  lemma {:induction false} RoundTripInOrder(ss: seq<Schema>, cs: seq<Node>)
    requires Conforms(ss, cs) && Ordered(ss, cs)
    ensures Encode(cs).Ok? && ReadKids(ss, Encode(cs).value) == Some(cs)
  {
    RoundTrip(ss, cs);
    OrderedStays(ss, cs);
  }

  // ---------------------------------------------------------------- what JSON does not show

  predicate GroupsConform(ss: seq<Schema>, cs: seq<Node>) {
    forall i :: 0 <= i < |ss| ==> ConformsGroup(ss[i], Named(ss[i].name, cs))
  }

  lemma {:induction false} ArrangeGroupAt(s: Schema, g: seq<Node>, i: nat)
    requires i < |g|
    ensures ArrangeGroup(s, g)[i] == ArrangeOne(s, g[i])
  {
    if i < |g| - 1 {
      ArrangeGroupAt(s, g[..|g| - 1], i);
    }
  }

  lemma ArrangedNames(s: Schema, g: seq<Node>)
    requires ConformsGroup(s, g)
    ensures forall i :: 0 <= i < |g| ==> ArrangeGroup(s, g)[i].name == s.name
  {
    forall i | 0 <= i < |g|
      ensures ArrangeGroup(s, g)[i].name == s.name
    {
      ArrangeGroupAt(s, g, i);
    }
  }

  lemma {:induction false} NamedAll(name: string, a: seq<Node>, g: seq<Node>)
    requires forall i :: 0 <= i < |g| ==> g[i].name == name
    ensures Named(name, a + g) == Named(name, a) + g
  {
    if g == [] {
      EmptyRight(a);
      EmptyRight(Named(name, a));
    } else {
      var front, c := g[..|g| - 1], g[|g| - 1];
      SplitLast(g);
      Assoc(a, front, [c]);
      NamedSnoc(name, a + front, c);
      NamedAll(name, a, front);
      Assoc(Named(name, a), front, [c]);
    }
  }

  lemma {:induction false} NotArranged(ss: seq<Schema>, cs: seq<Node>, name: string)
    requires GroupsConform(ss, cs) && forall i :: 0 <= i < |ss| ==> ss[i].name != name
    ensures Named(name, Arrange(ss, cs)) == []
  {
    if ss != [] {
      var init, s := ss[..|ss| - 1], ss[|ss| - 1];
      NotArranged(init, cs, name);
      ArrangedNames(s, Named(s.name, cs));
      NamedSkips(name, Arrange(init, cs), ArrangeGroup(s, Named(s.name, cs)));
    }
  }

  /** The arrangement keeps each name's children together, in their own order. */
  lemma {:induction false} NamedArrange(ss: seq<Schema>, cs: seq<Node>, i: nat)
    requires Distinct(ss) && GroupsConform(ss, cs) && i < |ss|
    ensures Named(ss[i].name, Arrange(ss, cs)) == ArrangeGroup(ss[i], Named(ss[i].name, cs))
  {
    var init, s := ss[..|ss| - 1], ss[|ss| - 1];
    var g := ArrangeGroup(s, Named(s.name, cs));
    ArrangedNames(s, Named(s.name, cs));
    if i < |init| {
      NamedArrange(init, cs, i);
      NamedSkips(ss[i].name, Arrange(init, cs), g);
    } else {
      NotArranged(init, cs, s.name);
      NamedAll(s.name, Arrange(init, cs), g);
      EmptyLeft(g);
    }
  }

  lemma {:induction false} ArrangedGroup(s: Schema, g: seq<Node>)
    requires ConformsGroup(s, g)
    ensures ConformsGroup(s, ArrangeGroup(s, g))
    ensures AllEncodable(g) && AllEncodable(ArrangeGroup(s, g))
    ensures EncodedAll(ArrangeGroup(s, g)) == EncodedAll(g)
    decreases s, 2
  {
    var r := ArrangeGroup(s, g);
    forall i | 0 <= i < |g|
      ensures r[i].name == s.name && ConformsOne(s, r[i])
      ensures Encodable(g[i]) && Encodable(r[i]) && Encoded(r[i]) == Encoded(g[i])
    {
      ArrangeGroupAt(s, g, i);
      ArrangedOne(s, g[i]);
    }
  }

  lemma {:induction false} ArrangedOne(s: Schema, c: Node)
    requires ConformsOne(s, c)
    ensures ConformsOne(s, ArrangeOne(s, c)) && Encodable(c) && Encodable(ArrangeOne(s, c))
    ensures Encoded(ArrangeOne(s, c)) == Encoded(c)
    decreases s, 1
  {
    if s.ListS? || s.ContainerS? {
      ArrangedKids(s.kids, c.children);
    }
  }

  lemma SameGroup(s: Schema, g: seq<Node>)
    requires ConformsGroup(s, g) && g != [] && AllEncodable(g) && AllEncodable(ArrangeGroup(s, g))
    requires EncodedAll(ArrangeGroup(s, g)) == EncodedAll(g)
    ensures Group(ArrangeGroup(s, g)) == Group(g)
  {
    ArrangeGroupAt(s, g, 0);
    var n := |g| - 1;
    assert EncodedAll(ArrangeGroup(s, g))[n] == EncodedAll(g)[n];
  }

  lemma {:induction false} ArrangedDeclared(ss: seq<Schema>, cs: seq<Node>, i: nat)
    requires GroupsConform(ss, cs) && i < |Arrange(ss, cs)|
    ensures Declared(ss, Arrange(ss, cs)[i])
  {
    var init, s := ss[..|ss| - 1], ss[|ss| - 1];
    if i < |Arrange(init, cs)| {
      ArrangedDeclared(init, cs, i);
    } else {
      ArrangedNames(s, Named(s.name, cs));
    }
  }

  /** Arranging a tree, at every level, does not change its JSON. */
  lemma {:induction false} ArrangedKids(ss: seq<Schema>, cs: seq<Node>)
    requires Conforms(ss, cs)
    ensures Conforms(ss, Arrange(ss, cs)) && Encode(cs).Ok? && Encode(Arrange(ss, cs)) == Encode(cs)
    decreases ss, 3
  {
    var arranged := Arrange(ss, cs);
    forall i | 0 <= i < |arranged|
      ensures Declared(ss, arranged[i])
    {
      ArrangedDeclared(ss, cs, i);
    }
    forall i | 0 <= i < |ss|
      ensures Rearranged(ss[i], cs, arranged) && ConformsGroup(ss[i], Named(ss[i].name, arranged))
    {
      NamedArrange(ss, cs, i);
      ArrangedGroup(ss[i], Named(ss[i].name, cs));
    }
    ConformingIsUniform(ss, cs);
    ConformingIsUniform(ss, arranged);
    ConformingIsEncodable(ss, cs);
    ConformingIsEncodable(ss, arranged);
    GroupingFold(cs);
    GroupingFold(arranged);
    SameGroupBy(ss, cs, arranged);
  }

  /** The children called `s.name` in `b` are those in `a`, arranged, with the same JSON. */
  predicate Rearranged(s: Schema, a: seq<Node>, b: seq<Node>) {
    var g, h := Named(s.name, a), Named(s.name, b);
    && ConformsGroup(s, g) && h == ArrangeGroup(s, g)
    && AllEncodable(g) && AllEncodable(h) && EncodedAll(h) == EncodedAll(g)
  }

  lemma NameAgrees(s: Schema, a: seq<Node>, b: seq<Node>)
    requires Rearranged(s, a, b)
    ensures s.name in Names(a) <==> s.name in Names(b)
  {
    InNames(s.name, a);
    InNames(s.name, b);
  }

  lemma {:induction false} NamesAgree(ss: seq<Schema>, a: seq<Node>, b: seq<Node>)
    requires Conforms(ss, a) && Conforms(ss, b)
    requires forall i :: 0 <= i < |ss| ==> Rearranged(ss[i], a, b)
    ensures Names(a) == Names(b) && (a == [] <==> b == [])
  {
    forall name | name in Names(a) || name in Names(b)
      ensures name in Names(a) && name in Names(b)
    {
      var k := SchemaOfName(ss, a, b, name);
      NameAgrees(ss[k], a, b);
    }
    assert a != [] ==> a[0].name in Names(a);
    assert b != [] ==> b[0].name in Names(b);
  }

  lemma SameMember(s: Schema, a: seq<Node>, b: seq<Node>)
    requires AllEncodable(a) && AllEncodable(b) && Rearranged(s, a, b)
    requires s.name in Names(a) && s.name in Names(b)
    ensures GroupBy(a).Object? && s.name in GroupBy(a).fields
    ensures GroupBy(b).Object? && s.name in GroupBy(b).fields
    ensures GroupBy(a).fields[s.name] == GroupBy(b).fields[s.name]
  {
    GroupByAt(a, s.name);
    GroupByAt(b, s.name);
    SameGroup(s, Named(s.name, a));
  }

  lemma SameMaps<K, V>(m: map<K, V>, n: map<K, V>)
    requires m.Keys == n.Keys && forall k :: k in m.Keys ==> m[k] == n[k]
    ensures m == n
  {
  }

  lemma {:induction false} SameGroupBy(ss: seq<Schema>, a: seq<Node>, b: seq<Node>)
    requires Conforms(ss, a) && Conforms(ss, b) && AllEncodable(a) && AllEncodable(b)
    requires forall i :: 0 <= i < |ss| ==> Rearranged(ss[i], a, b)
    ensures GroupBy(a) == GroupBy(b)
  {
    NamesAgree(ss, a, b);
    if a != [] {
      GroupByAt(a, a[0].name);
      GroupByAt(b, b[0].name);
      var m, n := GroupBy(a).fields, GroupBy(b).fields;
      forall name | name in m.Keys
        ensures m[name] == n[name]
      {
        var k := SchemaOfName(ss, a, b, name);
        SameMember(ss[k], a, b);
      }
      SameMaps(m, n);
    }
  }

  lemma SchemaOfName(ss: seq<Schema>, a: seq<Node>, b: seq<Node>, name: string) returns (k: nat)
    requires Conforms(ss, a) && Conforms(ss, b) && (name in Names(a) || name in Names(b))
    ensures k < |ss| && ss[k].name == name
  {
    if name in Names(a) {
      var i :| 0 <= i < |a| && a[i].name == name;
      k := SchemaOf(ss, a, i);
    } else {
      var i :| 0 <= i < |b| && b[i].name == name;
      k := SchemaOf(ss, b, i);
    }
  }

  /** Two trees of one schema have the same JSON if and only if they differ, at every level,
      in nothing but how differently named siblings interleave. */
  lemma {:induction false} InterleavingIsInvisible(ss: seq<Schema>, a: seq<Node>, b: seq<Node>)
    requires Conforms(ss, a) && Conforms(ss, b)
    ensures Encode(a) == Encode(b) <==> Arrange(ss, a) == Arrange(ss, b)
  {
    RoundTrip(ss, a);
    RoundTrip(ss, b);
    ArrangedKids(ss, a);
    ArrangedKids(ss, b);
  }
}
