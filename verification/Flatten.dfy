/** Flattening loses nothing: the datastore that storeTree fills determines every list
    instance and every leaf, the unwritten key leaves included. */
module Flatten {
  import opened Seqs
  import opened Gnmi
  import opened Decimal
  import opened XPath
  import opened Session
  import opened Store
  import opened Walk

  /** The leaf types of the fragment. */
  datatype LyType = BinaryT | StringT | BoolT | IntegerT(ty: IntType) | IdentT | EnumT | EmptyT

  /** What a data tree says at a location, in libyang's terms; `Unreadable` is never said. */
  datatype Fact = Instance | LeafIs(value: LyValue) | KeyIs(value: LyValue) | Unreadable

  /** A datastore as a map from locations, and an accepted edit's effect on it. */
  type Data = map<Location, Val>

  function Put(m: Data, e: Edit): Data {
    if e.SetItem? && e.target.AtNode? then m[e.target.loc := e.val] else m
  }

  function Flat(visits: seq<Visit>): Data {
    ApplyAll(Put, map[], AllEdits(visits))
  }

  // ---------------------------------------------------------------- the fragment

  predicate NoColon(s: string) {
    Free(s, ":")
  }

  /** The type of a supported value; the module names of identities hold no colon. */
  function TypeOf(v: LyValue): Option<LyType> {
    match v
    case Binary(_) => Some(BinaryT)
    case Str(_) => Some(StringT)
    case Bool(_) => Some(BoolT)
    case Integer(ty, _) => Some(IntegerT(ty))
    case Ident(mod, _) => if NoColon(mod) then Some(IdentT) else None
    case Enum(_) => Some(EnumT)
    case EmptyLeaf => Some(EmptyT)
    case _ => None
  }

  /** The libyang value that sysrepo's value `val` stands for, in a leaf of type `t`. */
  function ReadVal(t: LyType, val: Val): Option<LyValue> {
    match t
    case BinaryT => if val.StringVal? then Some(Binary(val.s)) else None
    case StringT => if val.StringVal? then Some(Str(val.s)) else None
    case BoolT => if val.BoolVal? then Some(Bool(val.b)) else None
    case IntegerT(ty) => if val.IntVal? && val.ty == ty then Some(Integer(ty, val.n)) else None
    case IdentT => if val.IdentityVal? then ReadIdent(val.id) else None
    case EnumT => if val.EnumVal? then Some(Enum(val.e)) else None
    case EmptyT => if val.EmptyVal? then Some(EmptyLeaf) else None
  }

  /** The libyang value that a key predicate's text stands for, in a leaf of type `t`. */
  function ReadText(t: LyType, text: string): Option<LyValue> {
    match t
    case BinaryT => Some(Binary(text))
    case StringT => Some(Str(text))
    case BoolT => if text == "true" then Some(Bool(true)) else if text == "false" then Some(Bool(false)) else None
    case IntegerT(ty) =>
      (match ReadInt(text)
       case None => None
       case Some(n) => Some(Integer(ty, n)))
    case IdentT => ReadIdent(text)
    case EnumT => Some(Enum(text))
    case EmptyT => if text == "" then Some(EmptyLeaf) else None
  }

  /** Splits `module:name` at its first colon. */
  function ReadIdent(text: string): Option<LyValue> {
    var (mod, rest) := Span(text, ":");
    if rest == "" then None else Some(Ident(mod, rest[1..]))
  }

  lemma ReadIdentBack(mod: string, id: string)
    requires NoColon(mod)
    ensures ReadIdent(mod + ":" + id) == Some(Ident(mod, id))
  {
    Assoc(mod, ":", id);
    SpanAppend(mod, ":" + id, ":");
    assert (":" + id)[1..] == id;
  }

  lemma ReadIdentSplits(text: string)
    requires ReadIdent(text).Some?
    ensures var v := ReadIdent(text).value; text == v.mod + ":" + v.id && NoColon(v.mod)
  {
    var (mod, rest) := Span(text, ":");
    SpanSplits(text, ":");
    assert rest == ":" + rest[1..];
    Assoc(mod, ":", rest[1..]);
  }

  /** What storeLeaf writes for a value of the fragment stands for that value, and a value that
      can be read is written as it was: writing and reading are mutually inverse, type by type. */
  lemma ReadStored(v: LyValue)
    requires TypeOf(v).Some?
    ensures ToVal(v).Some? && ReadVal(TypeOf(v).value, ToVal(v).value) == Some(v)
  {
    if v.Ident? {
      ReadIdentBack(v.mod, v.id);
    }
  }

  lemma StoredRead(t: LyType, val: Val)
    requires ReadVal(t, val).Some?
    ensures TypeOf(ReadVal(t, val).value) == Some(t) && ToVal(ReadVal(t, val).value) == Some(val)
  {
    if t.IdentT? {
      ReadIdentSplits(val.id);
    }
  }

  /** The text of a key predicate stands for the value of the key leaf. */
  lemma ReadKeyText(v: LyValue)
    requires TypeOf(v).Some?
    ensures ReadText(TypeOf(v).value, Canon(v)) == Some(v)
  {
    match v {
      case Integer(_, n) => ReadPrintInt(n);
      case Ident(mod, id) => ReadIdentBack(mod, id);
      case _ =>
    }
  }

  /** The schema: the type of the leaf at a path of names, list keys left out. */
  type Types = seq<string> -> Option<LyType>

  function NamesOf(x: Location): (names: seq<string>)
    ensures |names| == |x|
  {
    seq(|x|, i requires 0 <= i < |x| => x[i].name)
  }

  /** Every leaf visited has the type that the schema gives it. */
  predicate Typed(types: Types, visits: seq<Visit>) {
    forall v :: v in visits && v.AtLeaf? ==> types(NamesOf(v.leaf.loc)) == TypeOf(v.leaf.value)
  }

  /** No leaf-lists, leafrefs, decimals or unsupported types; sibling segments are distinct;
      keys only where `inList` says that the siblings belong to a list entry. */
  predicate WellFormed(ns: seq<DataNode>, inList: bool)
    decreases ns, 1
  {
    && (forall i, j :: 0 <= i < j < |ns| ==> SegmentOf(ns[i]) != SegmentOf(ns[j]))
    && (forall i :: 0 <= i < |ns| ==> WellFormedNode(ns[i], inList))
  }

  predicate WellFormedNode(n: DataNode, inList: bool)
    decreases n, 0
  {
    match n
    case LeafNode(_, isKey, value) => TypeOf(value).Some? && (isKey ==> inList)
    case LeafListNode(_) => false
    case ListNode(_, children) => WellFormed(children, true)
    case Inner(_, children) => WellFormed(children, false)
  }

  /** What a visit establishes, and what storeTree writes for it. */
  function FactOf(v: Visit): Option<Fact> {
    match v
    case AtList(_) => Some(Instance)
    case AtLeaf(leaf) =>
      if leaf.isKey then Some(KeyIs(leaf.value)) else Some(LeafIs(leaf.value))
    case _ => None
  }

  function WriteOf(v: Visit): Option<Val> {
    match v
    case AtList(_) => Some(ListVal)
    case AtLeaf(leaf) => if leaf.isKey then None else ToVal(leaf.value)
    case _ => None
  }

  predicate InFragment(v: Visit) {
    && !v.AtLeafList?
    && (v.AtLeaf? ==>
          && TypeOf(v.leaf.value).Some?
          && v.leaf.loc != [] && v.leaf.loc[|v.leaf.loc| - 1].Plain?)
    && (v.AtList? ==> v.loc != [] && v.loc[|v.loc| - 1].Entry? && DistinctNames(v.loc[|v.loc| - 1].keys))
  }

  predicate DistinctNames(keys: seq<Key>) {
    forall i, j :: 0 <= i < j < |keys| ==> keys[i].name != keys[j].name
  }

  predicate DistinctLocs(visits: seq<Visit>) {
    forall i, j :: 0 <= i < j < |visits| ==> LocOf(visits[i]) != LocOf(visits[j])
  }

  // ---------------------------------------------------------------- rebuilding

  function LookupKey(keys: seq<Key>, name: string): Option<string> {
    if keys == [] then None
    else if keys[|keys| - 1].name == name then Some(keys[|keys| - 1].value)
    else LookupKey(keys[..|keys| - 1], name)
  }

  /** What the datastore `m` says at `x`, read with the schema: what is stored there, or the
      key that a stored list entry shows. */
  function Rebuild(m: Data, types: Types, x: Location): Option<Fact> {
    if x in m then Some(if m[x] == ListVal then Instance else StoredFact(types(NamesOf(x)), m[x]))
    else if x == [] || !x[|x| - 1].Plain? then None
    else ShownKey(m, types, x)
  }

  function StoredFact(t: Option<LyType>, val: Val): Fact {
    match t
    case None => Unreadable
    case Some(ty) =>
      match ReadVal(ty, val)
      case None => Unreadable
      case Some(v) => LeafIs(v)
  }

  function ShownKey(m: Data, types: Types, x: Location): Option<Fact>
    requires x != []
  {
    var loc, name := x[..|x| - 1], x[|x| - 1].name;
    if loc == [] || loc !in m || m[loc] != ListVal || !loc[|loc| - 1].Entry? then None
    else
      match LookupKey(loc[|loc| - 1].keys, name)
      case None => None
      case Some(text) => Some(KeyFact(types(NamesOf(x)), text))
  }

  function KeyFact(t: Option<LyType>, text: string): Fact {
    match t
    case None => Unreadable
    case Some(ty) =>
      match ReadText(ty, text)
      case None => Unreadable
      case Some(v) => KeyIs(v)
  }

  // ---------------------------------------------------------------- what the walk writes

  lemma EditsOfVisit(v: Visit)
    requires InFragment(v)
    ensures VisitPlan(v).fault == None
    ensures VisitPlan(v).edits == if WriteOf(v).Some? then [SetItem(AtNode(LocOf(v)), WriteOf(v).value)] else []
  {
  }

  lemma FlatSnoc(visits: seq<Visit>, v: Visit)
    requires InFragment(v)
    ensures Flat(visits + [v]) == if WriteOf(v).Some? then Flat(visits)[LocOf(v) := WriteOf(v).value] else Flat(visits)
  {
    EditsOfVisit(v);
    var es, one := AllEdits(visits), VisitPlan(v).edits;
    AllEditsAppend(visits, [v]);
    AllEditsOne(v);
    ApplyAllAppend(Put, map[], es, one);
    if one != [] {
      assert one[..|one| - 1] == [];
      assert ApplyAll(Put, Flat(visits), []) == Flat(visits);
    }
  }

  /** The flattened map holds exactly what the visits write, each at its own location. */
  lemma {:induction false} FlatHolds(visits: seq<Visit>)
    requires DistinctLocs(visits) && forall v :: v in visits ==> InFragment(v)
    ensures forall v :: v in visits && WriteOf(v).Some? ==>
              LocOf(v) in Flat(visits) && Flat(visits)[LocOf(v)] == WriteOf(v).value
    ensures forall x :: x in Flat(visits) ==> exists v :: v in visits && WriteOf(v).Some? && LocOf(v) == x
  {
    if visits != [] {
      var front, last := visits[..|visits| - 1], visits[|visits| - 1];
      assert visits == front + [last];
      FlatHolds(front);
      FlatSnoc(front, last);
      forall v | v in front
        ensures LocOf(v) != LocOf(last)
      {
        var i :| 0 <= i < |front| && front[i] == v;
        assert visits[i] == v;
      }
    }
  }

  // ---------------------------------------------------------------- the walk's shape

  lemma {:induction false} KeyNamesDistinct(ns: seq<DataNode>)
    requires WellFormed(ns, true)
    ensures DistinctNames(KeysOf(ns))
    ensures forall k :: k in KeysOf(ns) ==>
              exists i :: 0 <= i < |ns| && ns[i].LeafNode? && ns[i].isKey && k == Key(ns[i].name, Canon(ns[i].value))
  {
    if ns != [] {
      var front, n := ns[..|ns| - 1], ns[|ns| - 1];
      WellFormedFront(ns, true);
      KeyNamesDistinct(front);
      if n.LeafNode? && n.isKey {
        forall k | k in KeysOf(front)
          ensures k.name != n.name
        {
          var i :| 0 <= i < |front| && front[i].LeafNode? && front[i].isKey
                   && k == Key(front[i].name, Canon(front[i].value));
          assert SegmentOf(ns[i]) != SegmentOf(ns[|front|]);
        }
      }
      forall k | k in KeysOf(ns)
        ensures exists i :: 0 <= i < |ns| && ns[i].LeafNode? && ns[i].isKey && k == Key(ns[i].name, Canon(ns[i].value))
      {
        if k in KeysOf(front) {
          var i :| 0 <= i < |front| && front[i].LeafNode? && front[i].isKey
                   && k == Key(front[i].name, Canon(front[i].value));
          assert ns[i] == front[i];
        } else {
          assert ns[|front|] == n;
        }
      }
    }
  }

  lemma WellFormedFront(ns: seq<DataNode>, inList: bool)
    requires WellFormed(ns, inList) && ns != []
    ensures WellFormed(ns[..|ns| - 1], inList) && WellFormedNode(ns[|ns| - 1], inList)
  {
    assert forall i :: 0 <= i < |ns| - 1 ==> ns[..|ns| - 1][i] == ns[i];
  }

  lemma {:induction false} DfsInFragment(parent: Location, ns: seq<DataNode>, inList: bool)
    requires WellFormed(ns, inList)
    ensures forall v :: v in Dfs(parent, ns) ==> InFragment(v)
    decreases ns, 1
  {
    if ns != [] {
      WellFormedFront(ns, inList);
      DfsInFragment(parent, ns[..|ns| - 1], inList);
      NodeInFragment(parent, ns[|ns| - 1], inList);
    }
  }

  lemma {:induction false} NodeInFragment(parent: Location, n: DataNode, inList: bool)
    requires WellFormedNode(n, inList)
    ensures forall v :: v in DfsNode(parent, n) ==> InFragment(v)
    decreases n, 0
  {
    var loc := parent + [SegmentOf(n)];
    if n.ListNode? {
      KeyNamesDistinct(n.children);
      DfsInFragment(loc, n.children, true);
    } else if n.Inner? {
      DfsInFragment(loc, n.children, false);
    }
    assert InFragment(VisitOf(loc, n));
  }

  /** All of a node's visits lie at or below its own location. */
  lemma {:induction false} DfsBelow(parent: Location, ns: seq<DataNode>)
    ensures forall v :: v in Dfs(parent, ns) ==> |LocOf(v)| > |parent| && IsPrefix(parent, LocOf(v))
    decreases ns, 1
  {
    if ns != [] {
      DfsBelow(parent, ns[..|ns| - 1]);
      NodeBelow(parent, ns[|ns| - 1]);
      forall v | v in DfsNode(parent, ns[|ns| - 1])
        ensures |LocOf(v)| > |parent| && IsPrefix(parent, LocOf(v))
      {
        ShorterPrefix(parent, SegmentOf(ns[|ns| - 1]), LocOf(v));
      }
    }
  }

  lemma {:induction false} NodeBelow(parent: Location, n: DataNode)
    ensures forall v :: v in DfsNode(parent, n) ==> IsPrefix(parent + [SegmentOf(n)], LocOf(v))
    decreases n, 0
  {
    var loc := parent + [SegmentOf(n)];
    assert IsPrefix(loc, LocOf(VisitOf(loc, n)));
    if n.ListNode? || n.Inner? {
      DfsBelow(loc, n.children);
    }
  }

  /** A visit shows, at the siblings' position, the segment of the sibling it lies below. */
  lemma {:induction false} DfsSegment(parent: Location, ns: seq<DataNode>, v: Visit) returns (i: nat)
    requires v in Dfs(parent, ns)
    ensures i < |ns| && |LocOf(v)| > |parent| && LocOf(v)[|parent|] == SegmentOf(ns[i])
    decreases ns
  {
    var front, n := ns[..|ns| - 1], ns[|ns| - 1];
    if v in DfsNode(parent, n) {
      i := |front|;
      NodeBelow(parent, n);
      ShorterPrefix(parent, SegmentOf(n), LocOf(v));
    } else {
      assert v in Dfs(parent, front);
      i := DfsSegment(parent, front, v);
    }
  }

  lemma DistinctJoin(a: seq<Visit>, b: seq<Visit>)
    requires DistinctLocs(a) && DistinctLocs(b)
    requires forall i, j :: 0 <= i < |a| && 0 <= j < |b| ==> LocOf(a[i]) != LocOf(b[j])
    ensures DistinctLocs(a + b)
  {
  }

  lemma {:induction false} DfsDistinct(parent: Location, ns: seq<DataNode>, inList: bool)
    requires WellFormed(ns, inList)
    ensures DistinctLocs(Dfs(parent, ns))
    decreases ns, 1
  {
    if ns != [] {
      var front, n := ns[..|ns| - 1], ns[|ns| - 1];
      WellFormedFront(ns, inList);
      DfsDistinct(parent, front, inList);
      NodeDistinct(parent, n, inList);
      NodeBelow(parent, n);
      var a, b := Dfs(parent, front), DfsNode(parent, n);
      forall i, j | 0 <= i < |a| && 0 <= j < |b|
        ensures LocOf(a[i]) != LocOf(b[j])
      {
        assert a[i] in a && b[j] in b;
        ShorterPrefix(parent, SegmentOf(n), LocOf(b[j]));
        var h := DfsSegment(parent, front, a[i]);
        assert SegmentOf(ns[h]) != SegmentOf(ns[|front|]);
      }
      DistinctJoin(a, b);
    }
  }

  lemma {:induction false} NodeDistinct(parent: Location, n: DataNode, inList: bool)
    requires WellFormedNode(n, inList)
    ensures DistinctLocs(DfsNode(parent, n))
    decreases n, 0
  {
    var loc := parent + [SegmentOf(n)];
    if n.ListNode? || n.Inner? {
      DfsDistinct(loc, n.children, n.ListNode?);
      DfsBelow(loc, n.children);
      var below := Dfs(loc, n.children);
      forall j | 0 <= j < |below|
        ensures LocOf(below[j]) != loc
      {
        assert below[j] in below;
      }
      DistinctJoin([VisitOf(loc, n)], below);
    }
  }

  // ---------------------------------------------------------------- keys and their entries

  /** The visit at a key leaf that is a child of the walked siblings. */
  lemma {:induction false} KeyLeafVisited(parent: Location, ns: seq<DataNode>, k: Key) returns (w: Visit)
    requires k in KeysOf(ns)
    ensures w in Dfs(parent, ns) && w.AtLeaf? && w.leaf.isKey
    ensures w.leaf.loc == parent + [Plain(k.name)] && Canon(w.leaf.value) == k.value
  {
    var front, n := ns[..|ns| - 1], ns[|ns| - 1];
    if k in KeysOf(front) {
      w := KeyLeafVisited(parent, front, k);
    } else {
      w := VisitOf(parent + [SegmentOf(n)], n);
      assert w in DfsNode(parent, n);
    }
  }

  /** Every key that a visited list entry shows has its key leaf visited. */
  lemma {:induction false} EntryHasKeyLeaf(parent: Location, ns: seq<DataNode>, v: Visit, k: Key) returns (w: Visit)
    requires v in Dfs(parent, ns) && v.AtList? && v.loc != [] && v.loc[|v.loc| - 1].Entry?
    requires k in v.loc[|v.loc| - 1].keys
    ensures w in Dfs(parent, ns) && w.AtLeaf? && w.leaf.isKey
    ensures w.leaf.loc == v.loc + [Plain(k.name)] && Canon(w.leaf.value) == k.value
    decreases ns
  {
    var front, n := ns[..|ns| - 1], ns[|ns| - 1];
    var loc := parent + [SegmentOf(n)];
    if v in Dfs(parent, front) {
      w := EntryHasKeyLeaf(parent, front, v, k);
    } else if v == VisitOf(loc, n) {
      w := KeyLeafVisited(loc, n.children, k);
    } else {
      w := EntryHasKeyLeaf(loc, n.children, v, k);
    }
  }

  predicate ShowsKey(v: Visit, w: Leaf) {
    && v.AtList? && v.loc != [] && w.loc != [] && w.loc[|w.loc| - 1].Plain?
    && v.loc[|v.loc| - 1].Entry?
    && w.loc == v.loc + [w.loc[|w.loc| - 1]]
    && Key(w.loc[|w.loc| - 1].name, Canon(w.value)) in v.loc[|v.loc| - 1].keys
  }

  /** Every visited key leaf belongs to a visited list entry that shows it, unless it is a
      child of the walked siblings themselves. */
  lemma {:induction false} KeyLeafHasEntry(parent: Location, ns: seq<DataNode>, inList: bool, w: Leaf)
    requires AtLeaf(w) in Dfs(parent, ns) && w.isKey && WellFormed(ns, inList)
    ensures || (inList && w.loc != [] && w.loc[|w.loc| - 1].Plain? && w.loc == parent + [w.loc[|w.loc| - 1]]
                && Key(w.loc[|w.loc| - 1].name, Canon(w.value)) in KeysOf(ns))
            || exists v :: v in Dfs(parent, ns) && ShowsKey(v, w)
    decreases ns
  {
    var front, n := ns[..|ns| - 1], ns[|ns| - 1];
    var loc := parent + [SegmentOf(n)];
    WellFormedFront(ns, inList);
    if AtLeaf(w) in Dfs(parent, front) {
      KeyLeafHasEntry(parent, front, inList, w);
    } else if AtLeaf(w) != VisitOf(loc, n) {
      KeyLeafHasEntry(loc, n.children, n.ListNode?, w);
      var owner := VisitOf(loc, n);
      assert owner in DfsNode(parent, n);
      if !exists v :: v in Dfs(loc, n.children) && ShowsKey(v, w) {
        assert ShowsKey(owner, w);
      }
    }
  }

  lemma {:induction false} LookupFinds(keys: seq<Key>, k: Key)
    requires DistinctNames(keys) && k in keys
    ensures LookupKey(keys, k.name) == Some(k.value)
  {
    var front, last := keys[..|keys| - 1], keys[|keys| - 1];
    if k in front {
      var i :| 0 <= i < |front| && front[i] == k;
      assert keys[i].name != keys[|front|].name;
      LookupFinds(front, k);
    }
  }

  lemma {:induction false} LookupFound(keys: seq<Key>, name: string)
    requires LookupKey(keys, name).Some?
    ensures Key(name, LookupKey(keys, name).value) in keys
  {
    if keys[|keys| - 1].name != name {
      LookupFound(keys[..|keys| - 1], name);
    }
  }

  // ---------------------------------------------------------------- the theorem

  /** What a well-formed tree's walk is known to satisfy. */
  predicate GoodWalk(visits: seq<Visit>) {
    DistinctLocs(visits) && forall v :: v in visits ==> InFragment(v)
  }

  lemma WalkIsGood(tree: seq<DataNode>)
    requires WellFormed(tree, false)
    ensures GoodWalk(Dfs([], tree))
  {
    DfsInFragment([], tree, false);
    DfsDistinct([], tree, false);
  }

  lemma SameLocSameVisit(visits: seq<Visit>, u: Visit, v: Visit)
    requires DistinctLocs(visits) && u in visits && v in visits && LocOf(u) == LocOf(v)
    ensures u == v
  {
    var i :| 0 <= i < |visits| && visits[i] == u;
    var j :| 0 <= j < |visits| && visits[j] == v;
  }

  lemma UnwrittenLocation(visits: seq<Visit>, v: Visit)
    requires GoodWalk(visits) && v in visits && WriteOf(v).None?
    ensures LocOf(v) !in Flat(visits)
  {
    FlatHolds(visits);
    forall u | u in visits && WriteOf(u).Some?
      ensures LocOf(u) != LocOf(v)
    {
      if LocOf(u) == LocOf(v) {
        SameLocSameVisit(visits, u, v);
      }
    }
  }

  /** What a visit writes is read back as what it says. */
  lemma WriteAndFact(types: Types, v: Visit)
    requires WriteOf(v).Some? && InFragment(v)
    requires v.AtLeaf? ==> types(NamesOf(v.leaf.loc)) == TypeOf(v.leaf.value)
    ensures var val := WriteOf(v).value;
            FactOf(v) == Some(if val == ListVal then Instance else StoredFact(types(NamesOf(LocOf(v))), val))
  {
    if v.AtLeaf? {
      ReadStored(v.leaf.value);
    }
  }

  lemma KeyLeafIsRebuilt(types: Types, visits: seq<Visit>, e: Visit, w: Leaf)
    requires GoodWalk(visits) && e in visits && AtLeaf(w) in visits && w.isKey && ShowsKey(e, w)
    requires types(NamesOf(w.loc)) == TypeOf(w.value)
    ensures Rebuild(Flat(visits), types, w.loc) == Some(KeyIs(w.value))
  {
    var k := Key(w.loc[|w.loc| - 1].name, Canon(w.value));
    FlatHolds(visits);
    UnwrittenLocation(visits, AtLeaf(w));
    assert LocOf(e) == e.loc && WriteOf(e) == Some(ListVal) && InFragment(e) && InFragment(AtLeaf(w));
    assert w.loc[..|w.loc| - 1] == e.loc;
    LookupFinds(e.loc[|e.loc| - 1].keys, k);
    ReadKeyText(w.value);
  }

  /** Every fact of the tree is rebuilt, at its place, with its libyang value. */
  lemma FactIsRebuilt(types: Types, tree: seq<DataNode>, v: Visit)
    requires WellFormed(tree, false) && Typed(types, Dfs([], tree)) && v in Dfs([], tree) && FactOf(v).Some?
    ensures Rebuild(Flat(Dfs([], tree)), types, LocOf(v)) == FactOf(v)
  {
    WalkIsGood(tree);
    if v.AtLeaf? && v.leaf.isKey {
      KeyLeafHasEntry([], tree, false, v.leaf);
      var e :| e in Dfs([], tree) && ShowsKey(e, v.leaf);
      KeyLeafIsRebuilt(types, Dfs([], tree), e, v.leaf);
    } else {
      FlatHolds(Dfs([], tree));
      WriteExists(v);
      WriteAndFact(types, v);
    }
  }

  lemma WriteExists(v: Visit)
    requires InFragment(v) && FactOf(v).Some? && !(v.AtLeaf? && v.leaf.isKey)
    ensures WriteOf(v).Some?
  {
    if v.AtLeaf? {
      ReadStored(v.leaf.value);
    }
  }

  lemma StoredVisit(visits: seq<Visit>, x: Location) returns (v: Visit)
    requires GoodWalk(visits) && x in Flat(visits)
    ensures v in visits && FactOf(v).Some? && LocOf(v) == x
    ensures Flat(visits)[x] == ListVal ==> v.AtList?
  {
    FlatHolds(visits);
    v :| v in visits && WriteOf(v).Some? && LocOf(v) == x;
  }

  /** Whatever is rebuilt is a fact of the tree. */
  lemma RebuiltIsFact(types: Types, tree: seq<DataNode>, x: Location) returns (v: Visit)
    requires WellFormed(tree, false) && Rebuild(Flat(Dfs([], tree)), types, x).Some?
    ensures v in Dfs([], tree) && FactOf(v).Some? && LocOf(v) == x
  {
    WalkIsGood(tree);
    if x in Flat(Dfs([], tree)) {
      v := StoredVisit(Dfs([], tree), x);
    } else {
      var loc, name := x[..|x| - 1], x[|x| - 1].name;
      LookupFound(loc[|loc| - 1].keys, name);
      var k := Key(name, LookupKey(loc[|loc| - 1].keys, name).value);
      var e := StoredVisit(Dfs([], tree), loc);
      v := EntryHasKeyLeaf([], tree, e, k);
      SplitLast(x);
    }
  }

  /** A successful storeTree leaves the flattened tree in an empty datastore. */
  lemma StoredIsFlat(env: Env<Data>, calls: nat, visits: seq<Visit>)
    requires env.effect == Put
    requires Execute(env, SessionState(map[], map[], calls), WalkPlan(visits)).thrown == None
    ensures Execute(env, SessionState(map[], map[], calls), WalkPlan(visits)).st.staged == Flat(visits)
  {
    var plan := WalkPlan(visits);
    WalkPlanIsPrefix(visits);
    IssueFolds(env, SessionState(map[], map[], calls), plan.edits);
    assert plan.edits[..|plan.edits|] == plan.edits;
  }

  /** At every location, what is rebuilt from datastore `m` is what the tree of these visits
      says there: every list instance, the libyang value of every leaf, and nothing else. */
  ghost predicate Rebuilds(m: Data, types: Types, visits: seq<Visit>) {
    && (forall v :: v in visits && FactOf(v).Some? ==> Rebuild(m, types, LocOf(v)) == FactOf(v))
    && (forall x :: Rebuild(m, types, x).Some? ==> exists v :: v in visits && FactOf(v).Some? && LocOf(v) == x)
  }

  lemma FlatRebuilds(types: Types, tree: seq<DataNode>)
    requires WellFormed(tree, false) && Typed(types, Dfs([], tree))
    ensures Rebuilds(Flat(Dfs([], tree)), types, Dfs([], tree))
  {
    var visits := Dfs([], tree);
    forall v | v in visits && FactOf(v).Some?
      ensures Rebuild(Flat(visits), types, LocOf(v)) == FactOf(v)
    {
      FactIsRebuilt(types, tree, v);
    }
    forall x | Rebuild(Flat(visits), types, x).Some?
      ensures exists v :: v in visits && FactOf(v).Some? && LocOf(v) == x
    {
      var v := RebuiltIsFact(types, tree, x);
    }
  }

  /** A stored value that is read as what a visit says is what that visit writes. */
  lemma SaidIsWritten(t: Option<LyType>, val: Val, v: Visit)
    requires FactOf(v) == Some(if val == ListVal then Instance else StoredFact(t, val))
    ensures WriteOf(v) == Some(val)
  {
    if val != ListVal {
      StoredRead(t.value, val);
    }
  }

  /** A location that a rebuilt datastore stores is written by the walk, with that value. */
  lemma StoredIsWritten(m: Data, types: Types, visits: seq<Visit>, x: Location)
    requires GoodWalk(visits) && Rebuilds(m, types, visits) && x in m
    ensures x in Flat(visits) && Flat(visits)[x] == m[x]
  {
    FlatHolds(visits);
    assert Rebuild(m, types, x).Some?;
    var v :| v in visits && FactOf(v).Some? && LocOf(v) == x;
    assert Rebuild(m, types, x) == FactOf(v);
    SaidIsWritten(types(NamesOf(x)), m[x], v);
  }

  /** Whatever the walk writes is stored, with that value. */
  lemma WrittenIsStored(m: Data, types: Types, visits: seq<Visit>, x: Location)
    requires GoodWalk(visits) && Typed(types, visits) && Rebuilds(m, types, visits) && x in Flat(visits)
    ensures x in m
  {
    FlatHolds(visits);
    var v :| v in visits && WriteOf(v).Some? && LocOf(v) == x;
    WriteAndFact(types, v);
    assert Rebuild(m, types, x) == FactOf(v);
  }

  /** Rebuilding and flattening are mutually inverse: for a well-formed tree of the schema, what
      is rebuilt from a datastore is exactly the tree if and only if the datastore is the
      flattened tree. */
  lemma RebuildingInvertsFlattening(m: Data, types: Types, tree: seq<DataNode>)
    requires WellFormed(tree, false) && Typed(types, Dfs([], tree))
    ensures Rebuilds(m, types, Dfs([], tree)) <==> m == Flat(Dfs([], tree))
  {
    var visits := Dfs([], tree);
    WalkIsGood(tree);
    FlatRebuilds(types, tree);
    if Rebuilds(m, types, visits) {
      forall x
        ensures x in m ==> x in Flat(visits) && Flat(visits)[x] == m[x]
        ensures x in Flat(visits) ==> x in m
      {
        if x in m {
          StoredIsWritten(m, types, visits, x);
        }
        if x in Flat(visits) {
          WrittenIsStored(m, types, visits, x);
        }
      }
      assert m == Flat(visits);
    }
  }

  /** Flattening loses nothing.  When storeTree has stored a well-formed tree into an empty
      datastore, what is rebuilt from it is the tree, and no other datastore gives the tree. */
  lemma FlatteningLosesNothing(env: Env<Data>, calls: nat, types: Types, tree: seq<DataNode>, m: Data)
    requires env.effect == Put && WellFormed(tree, false) && Typed(types, Dfs([], tree))
    requires Execute(env, SessionState(map[], map[], calls), WalkPlan(Dfs([], tree))).thrown == None
    ensures Rebuilds(m, types, Dfs([], tree)) <==>
            m == Execute(env, SessionState(map[], map[], calls), WalkPlan(Dfs([], tree))).st.staged
  {
    StoredIsFlat(env, calls, Dfs([], tree));
    RebuildingInvertsFlattening(m, types, tree);
  }

  /** Trees of one schema that fill an empty datastore alike have the same list instances, and
      the same leaves with the same libyang values, keys included. */
  lemma SameStoreSameLeaves(types: Types, a: seq<DataNode>, b: seq<DataNode>, v: Visit)
    requires WellFormed(a, false) && WellFormed(b, false)
    requires Typed(types, Dfs([], a)) && Typed(types, Dfs([], b))
    requires Flat(Dfs([], a)) == Flat(Dfs([], b))
    requires v in Dfs([], a) && FactOf(v).Some?
    ensures v in Dfs([], b)
  {
    FactIsRebuilt(types, a, v);
    var w := RebuiltIsFact(types, b, LocOf(v));
    FactIsRebuilt(types, b, w);
  }

  /** What storeTree sends to sysrepo for a leaf that is no key: one edit at the leaf's own
      place, with a value that stands for the leaf's. */
  lemma LeafEdit(leaf: Leaf)
    requires !leaf.isKey && TypeOf(leaf.value).Some?
    ensures var plan := LeafPlan(leaf);
            && plan.fault == None && |plan.edits| == 1 && plan.edits[0].SetItem?
            && plan.edits[0].target == AtNode(leaf.loc)
            && ReadVal(TypeOf(leaf.value).value, plan.edits[0].val) == Some(leaf.value)
  {
    ReadStored(leaf.value);
  }
}
