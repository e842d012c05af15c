/** Writing a parsed data tree into the session (src/gnmi/encode/encode.cpp). */
module Store {
  import opened Seqs
  import opened Gnmi
  import opened Session

  // ---------------------------------------------------------------- libyang data trees

  /** A leaf value as libyang holds it.  `Unsupported` stands for bits, instance
      identifiers, unions, derived and unknown types. */
  datatype LyValue =
    | Binary(s: string)
    | Str(s: string)
    | Bool(b: bool)
    | Dec64(raw: int)
    | Integer(ty: IntType, n: int)
    | Ident(mod: string, id: string)
    | Enum(e: string)
    | EmptyLeaf
    | Leafref(target: Leaf)
    | Unsupported

  /** A leaf instance: its path, whether the schema makes it a list key, its value. */
  datatype Leaf = Leaf(loc: Location, isKey: bool, value: LyValue)

  /** One step of the depth-first walk. */
  datatype Visit = AtLeaf(leaf: Leaf) | AtLeafList(loc: Location) | AtList(loc: Location) | AtOther(loc: Location)

  /** Edits to issue in order, and the exception thrown after them, if any. */
  datatype Plan = Plan(edits: seq<Edit>, fault: Option<Fault>)

  /** The sysrepo value made for a leaf that is no leafref. */
  function ToVal(v: LyValue): Option<Val> {
    match v
    case Binary(s) => Some(StringVal(s))
    case Str(s) => Some(StringVal(s))
    case Bool(b) => Some(BoolVal(b))
    case Dec64(raw) => Some(DoubleVal(raw as real))
    case Integer(ty, n) => Some(IntVal(ty, n))
    case Ident(mod, id) => Some(IdentityVal(mod + ":" + id))
    case Enum(e) => Some(EnumVal(e))
    case EmptyLeaf => Some(EmptyVal)
    case Leafref(_) => None
    case Unsupported => None
  }

  /** What storing a leaf amounts to.  A key is not written; a leafref stores its target
      and then itself, with no value. */
  function LeafPlan(leaf: Leaf): Plan
    decreases leaf
  {
    if leaf.isKey then Plan([], None)
    else
      match leaf.value
      case Leafref(target) =>
        var p := LeafPlan(target);
        if p.fault.Some? then p else Plan(p.edits + [SetItem(AtNode(leaf.loc), NoVal)], None)
      case Unsupported => Plan([], Some(InvalidArgument))
      case v => Plan([SetItem(AtNode(leaf.loc), ToVal(v).value)], None)
  }

  function VisitPlan(v: Visit): Plan {
    match v
    case AtLeaf(leaf) => LeafPlan(leaf)
    case AtLeafList(_) => Plan([], None)
    case AtList(loc) => Plan([SetItem(AtNode(loc), ListVal)], None)
    case AtOther(_) => Plan([], None)
  }

  /** The plan of a walk: visit after visit, up to the first that throws by itself. */
  function WalkPlan(visits: seq<Visit>): Plan {
    if visits == [] then Plan([], None)
    else
      var p := WalkPlan(visits[..|visits| - 1]);
      if p.fault.Some? then p
      else
        var q := VisitPlan(visits[|visits| - 1]);
        Plan(p.edits + q.edits, q.fault)
  }

  /** Carrying out a plan on the session. */
  function Execute<S>(env: Env<S>, st: SessionState<S>, plan: Plan): Issued<S> {
    var r := Issue(env, st, plan.edits);
    if r.thrown.Some? then r else r.(thrown := plan.fault)
  }

  /** A plan that goes through, then another: the plan of both. */
  lemma ExecuteJoin<S>(env: Env<S>, st: SessionState<S>, p: Plan, q: Plan)
    requires p.fault == None
    ensures var r := Execute(env, st, p);
            var both := Execute(env, st, Plan(p.edits + q.edits, q.fault));
            if r.thrown.Some? then both == r
            else var t := Execute(env, r.st, q); both == t.(done := r.done + t.done)
  {
    IssueAppend(env, st, p.edits, q.edits);
  }

  /** Once a walk has thrown, the visits behind it make no difference. */
  lemma {:induction false} WalkStops<S>(env: Env<S>, st: SessionState<S>, visits: seq<Visit>, i: nat)
    requires i <= |visits| && Execute(env, st, WalkPlan(visits[..i])).thrown.Some?
    ensures Execute(env, st, WalkPlan(visits)) == Execute(env, st, WalkPlan(visits[..i]))
    decreases |visits| - i
  {
    if i < |visits| {
      var shorter, longer := visits[..i], visits[..i + 1];
      assert longer[..|longer| - 1] == shorter;
      if WalkPlan(shorter).fault.None? {
        ExecuteJoin(env, st, WalkPlan(shorter), VisitPlan(visits[i]));
      }
      WalkStops(env, st, visits, i + 1);
    } else {
      assert visits[..i] == visits;
    }
  }

  lemma ExecuteOne<S>(env: Env<S>, st: SessionState<S>, e: Edit)
    ensures Execute(env, st, Plan([e], None)) == Issue(env, st, [e])
  {
  }

  /** The leaves that storing `leaf` writes: the chain of its references, target first, up to
      the last key on the way. */
  function Chain(leaf: Leaf): seq<Leaf>
    decreases leaf
  {
    if leaf.isKey then []
    else if leaf.value.Leafref? then Chain(leaf.value.target) + [leaf]
    else [leaf]
  }

  /** Edit `k` writes leaf `k`: a referring leaf with a null value, the target with its own. */
  predicate WritesChain(es: seq<Edit>, chain: seq<Leaf>) {
    && |es| == |chain|
    && forall k :: 0 <= k < |es| ==>
         && es[k].SetItem? && es[k].target == AtNode(chain[k].loc)
         && (if chain[k].value.Leafref? then es[k].val == NoVal else ToVal(chain[k].value) == Some(es[k].val))
  }

  /** Storing a leafref writes its target, then every leaf that refers to it with a null value;
      an unsupported target throws and nothing is written. */
  lemma {:induction false} LeafrefChain(leaf: Leaf)
    ensures if Chain(leaf) != [] && Chain(leaf)[0].value.Unsupported? then
              LeafPlan(leaf) == Plan([], Some(InvalidArgument))
            else LeafPlan(leaf).fault == None && WritesChain(LeafPlan(leaf).edits, Chain(leaf))
    decreases leaf
  {
    if !leaf.isKey && leaf.value.Leafref? {
      LeafrefChain(leaf.value.target);
    }
  }

  /** The visits that are no leaf-lists, containers or other kinds. */
  function Stored(visits: seq<Visit>): seq<Visit> {
    if visits == [] then []
    else
      var v := visits[|visits| - 1];
      if v.AtLeaf? || v.AtList? then Stored(visits[..|visits| - 1]) + [v] else Stored(visits[..|visits| - 1])
  }

  /** storeTree passes leaf-lists, containers and other nodes without a trace. */
  lemma {:induction false} PassedSilently(visits: seq<Visit>)
    ensures WalkPlan(Stored(visits)) == WalkPlan(visits)
  {
    if visits != [] {
      var front, v := visits[..|visits| - 1], visits[|visits| - 1];
      PassedSilently(front);
      Unsnoc(Stored(front), v);
      EmptyRight(WalkPlan(front).edits);
    }
  }

  /** A leafref's own edit follows those of its target. */
  lemma LeafrefLast<S>(env: Env<S>, st: SessionState<S>, leaf: Leaf)
    requires !leaf.isKey && leaf.value.Leafref?
    ensures var r := Execute(env, st, LeafPlan(leaf.value.target));
            var both := Execute(env, st, LeafPlan(leaf));
            if r.thrown.Some? then both == r
            else
              var q := Issue(env, r.st, [SetItem(AtNode(leaf.loc), NoVal)]);
              both.st == q.st && both.thrown == q.thrown
  {
    var p := LeafPlan(leaf.value.target);
    if p.fault.None? {
      ExecuteJoin(env, st, p, Plan([SetItem(AtNode(leaf.loc), NoVal)], None));
      ExecuteOne(env, Execute(env, st, p).st, SetItem(AtNode(leaf.loc), NoVal));
    }
  }

  lemma PlainLeaf<S>(env: Env<S>, st: SessionState<S>, leaf: Leaf)
    requires !leaf.isKey && ToVal(leaf.value).Some?
    ensures Execute(env, st, LeafPlan(leaf)) == Issue(env, st, [SetItem(AtNode(leaf.loc), ToVal(leaf.value).value)])
  {
  }

  /** Encode::storeLeaf. */
  method StoreLeaf<S>(session: Session<S>, leaf: Leaf) returns (thrown: Option<Fault>)
    modifies session
    ensures var r := Execute(session.env, old(session.State()), LeafPlan(leaf));
            session.State() == r.st && thrown == r.thrown
    decreases leaf
  {
    if leaf.isKey {
      return None;
    }
    var sval := NoVal;
    match leaf.value {
      case Leafref(target) =>
        LeafrefLast(session.env, session.State(), leaf);
        thrown := StoreLeaf(session, target);
        if thrown.Some? {
          return;
        }
      case Unsupported =>
        return Some(InvalidArgument);
      case _ =>
        PlainLeaf(session.env, session.State(), leaf);
        sval := ToVal(leaf.value).value;
    }
    thrown := session.Submit(SetItem(AtNode(leaf.loc), sval));
  }

  /** One round of the loop over the walk. */
  method StoreVisit<S>(session: Session<S>, it: Visit) returns (thrown: Option<Fault>)
    modifies session
    ensures var r := Execute(session.env, old(session.State()), VisitPlan(it));
            session.State() == r.st && thrown == r.thrown
  {
    match it {
      case AtLeaf(leaf) =>
        thrown := StoreLeaf(session, leaf);
      case AtLeafList(_) =>
        thrown := None;
      case AtList(loc) =>
        ExecuteOne(session.env, session.State(), SetItem(AtNode(loc), ListVal));
        thrown := session.Submit(SetItem(AtNode(loc), ListVal));
      case AtOther(_) =>
        thrown := None;
    }
  }

  /** Encode::storeTree, over the walk that tree_dfs makes. */
  method StoreTree<S>(session: Session<S>, visits: seq<Visit>) returns (thrown: Option<Fault>)
    modifies session
    ensures var r := Execute(session.env, old(session.State()), WalkPlan(visits));
            session.State() == r.st && thrown == r.thrown
  {
    ghost var st0 := session.State();
    for i := 0 to |visits|
      invariant WalkPlan(visits[..i]).fault == None
      invariant Execute(session.env, st0, WalkPlan(visits[..i])).st == session.State()
      invariant Execute(session.env, st0, WalkPlan(visits[..i])).thrown == None
    {
      assert visits[..i + 1][..i] == visits[..i];
      ExecuteJoin(session.env, st0, WalkPlan(visits[..i]), VisitPlan(visits[i]));
      thrown := StoreVisit(session, visits[i]);
      if thrown.Some? {
        WalkStops(session.env, st0, visits, i + 1);
        return;
      }
    }
    assert visits[..|visits|] == visits;
    thrown := None;
  }
}
