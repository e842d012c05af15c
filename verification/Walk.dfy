/** The depth-first walk of a data tree, and what it means for the edits made on it
    (src/gnmi/encode/encode.cpp:160-201). */
module Walk {
  import opened Seqs
  import opened Gnmi
  import opened Decimal
  import opened Session
  import opened Store

  /** A libyang data tree.  `Inner` stands for containers and every other node kind that
      the walk passes without a write. */
  datatype DataNode =
    | LeafNode(name: string, isKey: bool, value: LyValue)
    | LeafListNode(name: string)
    | ListNode(name: string, children: seq<DataNode>)
    | Inner(name: string, children: seq<DataNode>)

  /** The canonical text of a leaf value, as list predicates show it. */
  function Canon(v: LyValue): string {
    match v
    case Binary(s) => s
    case Str(s) => s
    case Bool(b) => if b then "true" else "false"
    case Dec64(raw) => PrintInt(raw)
    case Integer(_, n) => PrintInt(n)
    case Ident(mod, id) => mod + ":" + id
    case Enum(e) => e
    case _ => ""
  }

  /** The key predicates of a list entry with these children. */
  function KeysOf(ns: seq<DataNode>): seq<Key> {
    if ns == [] then []
    else
      var front, n := KeysOf(ns[..|ns| - 1]), ns[|ns| - 1];
      if n.LeafNode? && n.isKey then front + [Key(n.name, Canon(n.value))] else front
  }

  function SegmentOf(n: DataNode): Segment {
    if n.ListNode? then Entry(n.name, KeysOf(n.children)) else Plain(n.name)
  }

  function VisitOf(loc: Location, n: DataNode): Visit {
    match n
    case LeafNode(_, isKey, value) => AtLeaf(Leaf(loc, isKey, value))
    case LeafListNode(_) => AtLeafList(loc)
    case ListNode(_, _) => AtList(loc)
    case Inner(_, _) => AtOther(loc)
  }

  /** tree_dfs, in preorder: each node, then its children, then its later siblings. */
  function Dfs(parent: Location, ns: seq<DataNode>): seq<Visit>
    decreases ns, 1
  {
    if ns == [] then [] else Dfs(parent, ns[..|ns| - 1]) + DfsNode(parent, ns[|ns| - 1])
  }

  function DfsNode(parent: Location, n: DataNode): seq<Visit>
    decreases n, 0
  {
    var loc := parent + [SegmentOf(n)];
    [VisitOf(loc, n)] + (if n.ListNode? || n.Inner? then Dfs(loc, n.children) else [])
  }

  function LocOf(v: Visit): Location {
    match v
    case AtLeaf(leaf) => leaf.loc
    case AtLeafList(loc) => loc
    case AtList(loc) => loc
    case AtOther(loc) => loc
  }

  /** The edits of all visits, as if none of them threw. */
  function AllEdits(visits: seq<Visit>): seq<Edit> {
    if visits == [] then [] else AllEdits(visits[..|visits| - 1]) + VisitPlan(visits[|visits| - 1]).edits
  }

  lemma {:induction false} AllEditsAppend(a: seq<Visit>, b: seq<Visit>)
    ensures AllEdits(a + b) == AllEdits(a) + AllEdits(b)
  {
    if b == [] {
      assert a + b == a;
    } else {
      AllEditsAppend(a, b[..|b| - 1]);
      AppendSnoc(a, b);
    }
  }

  /** The edits a walk issues are the first of all its edits. */
  lemma {:induction false} WalkPlanIsPrefix(visits: seq<Visit>)
    ensures IsPrefix(WalkPlan(visits).edits, AllEdits(visits))
    ensures WalkPlan(visits).fault == None ==> WalkPlan(visits).edits == AllEdits(visits)
  {
    if visits != [] {
      WalkPlanIsPrefix(visits[..|visits| - 1]);
    }
  }

  // ---------------------------------------------------------------- leafrefs aside

  predicate NoLeafref(v: Visit) {
    v.AtLeaf? ==> !v.leaf.value.Leafref?
  }

  predicate NoLeafrefs(visits: seq<Visit>) {
    forall i :: 0 <= i < |visits| ==> NoLeafref(visits[i])
  }

  lemma OneEditOrNone(v: Visit)
    requires NoLeafref(v)
    ensures |VisitPlan(v).edits| <= 1 && (VisitPlan(v).fault.Some? ==> VisitPlan(v).edits == [])
  {
  }

  /** If anything throws, the session holds the edits of exactly the visits before the one
      that threw, whether sysrepo refused its edit or its type is unsupported. */
  lemma {:induction false} PrefixOnFailure<S>(env: Env<S>, st: SessionState<S>, visits: seq<Visit>) returns (k: nat)
    requires NoLeafrefs(visits) && Execute(env, st, WalkPlan(visits)).thrown.Some?
    ensures k < |visits|
    ensures Execute(env, st, WalkPlan(visits[..k])).thrown == None
    ensures Execute(env, st, WalkPlan(visits)).st.staged == ApplyAll(env.effect, st.staged, AllEdits(visits[..k]))
    ensures Execute(env, st, WalkPlan(visits)).done == |AllEdits(visits[..k])|
  {
    var n := |visits| - 1;
    var front, v := visits[..n], visits[n];
    var r := Execute(env, st, WalkPlan(front));
    if r.thrown.Some? {
      k := PrefixOnFailure(env, st, front);
      WalkStops(env, st, visits, n);
      assert front[..k] == visits[..k];
    } else {
      k := n;
      OneEditOrNone(v);
      ExecuteJoin(env, st, WalkPlan(front), VisitPlan(v));
      WalkPlanIsPrefix(front);
      FailedVisitAddsNothing(env, r.st, v);
      IssueFolds(env, st, WalkPlan(front).edits);
      assert WalkPlan(front).edits[..r.done] == WalkPlan(front).edits;
    }
  }

  lemma FailedVisitAddsNothing<S>(env: Env<S>, st: SessionState<S>, v: Visit)
    requires NoLeafref(v) && Execute(env, st, VisitPlan(v)).thrown.Some?
    ensures Execute(env, st, VisitPlan(v)).st.staged == st.staged && Execute(env, st, VisitPlan(v)).done == 0
  {
    OneEditOrNone(v);
    var edits := VisitPlan(v).edits;
    if edits != [] {
      assert edits[..|edits| - 1] == [];
      assert Issue(env, st, []) == Issued(st, 0, None);
    }
  }

  // ---------------------------------------------------------------- parents first

  function EntryEdit(loc: Location): Edit {
    SetItem(AtNode(loc), ListVal)
  }

  /** Every list entry on the way to `loc`, and `loc` itself if it is one, is written by `es`. */
  predicate Enclosed(loc: Location, es: seq<Edit>) {
    forall n :: 0 < n <= |loc| && loc[n - 1].Entry? ==> EntryEdit(loc[..n]) in es
  }

  function EditLoc(e: Edit): Location {
    if e.SetItem? && e.target.AtNode? then e.target.loc else []
  }

  /** The list entries that enclose edit `e` are written by `es`. */
  predicate ParentsWritten(e: Edit, es: seq<Edit>) {
    EditLoc(e) != [] ==> Enclosed(EditLoc(e)[..|EditLoc(e)| - 1], es)
  }

  /** Each edit of `es` finds the list entries above it written in `ctx` or earlier in `es`. */
  predicate ParentsFirst(ctx: seq<Edit>, es: seq<Edit>) {
    es == [] ||
    (ParentsFirst(ctx, es[..|es| - 1]) && ParentsWritten(es[|es| - 1], ctx + es[..|es| - 1]))
  }

  lemma {:induction false} ParentsFirstAppend(ctx: seq<Edit>, a: seq<Edit>, b: seq<Edit>)
    requires ParentsFirst(ctx, a) && ParentsFirst(ctx + a, b)
    ensures ParentsFirst(ctx, a + b)
  {
    if b == [] {
      assert a + b == a;
    } else {
      ParentsFirstAppend(ctx, a, b[..|b| - 1]);
      AppendSnoc(a, b);
      assert ctx + (a + b[..|b| - 1]) == (ctx + a) + b[..|b| - 1];
    }
  }

  lemma EnclosedMore(loc: Location, a: seq<Edit>, b: seq<Edit>)
    requires Enclosed(loc, a)
    ensures Enclosed(loc, a + b)
  {
  }

  lemma {:induction false} DfsParentsFirst(parent: Location, ns: seq<DataNode>, ctx: seq<Edit>)
    requires Enclosed(parent, ctx) && NoLeafrefs(Dfs(parent, ns))
    ensures ParentsFirst(ctx, AllEdits(Dfs(parent, ns)))
    decreases ns, 1
  {
    if ns != [] {
      var front, n := Dfs(parent, ns[..|ns| - 1]), DfsNode(parent, ns[|ns| - 1]);
      SplitLeafrefs(front, n);
      DfsParentsFirst(parent, ns[..|ns| - 1], ctx);
      EnclosedMore(parent, ctx, AllEdits(front));
      NodeParentsFirst(parent, ns[|ns| - 1], ctx + AllEdits(front));
      AllEditsAppend(front, n);
      ParentsFirstAppend(ctx, AllEdits(front), AllEdits(n));
    }
  }

  lemma SplitLeafrefs(a: seq<Visit>, b: seq<Visit>)
    requires NoLeafrefs(a + b)
    ensures NoLeafrefs(a) && NoLeafrefs(b)
  {
    assert forall i :: 0 <= i < |a| ==> a[i] == (a + b)[i];
    assert forall i :: 0 <= i < |b| ==> b[i] == (a + b)[|a| + i];
  }

  lemma {:induction false} NodeParentsFirst(parent: Location, n: DataNode, ctx: seq<Edit>)
    requires Enclosed(parent, ctx) && NoLeafrefs(DfsNode(parent, n))
    ensures ParentsFirst(ctx, AllEdits(DfsNode(parent, n)))
    decreases n, 0
  {
    var loc := parent + [SegmentOf(n)];
    var v := VisitOf(loc, n);
    var below := if n.ListNode? || n.Inner? then Dfs(loc, n.children) else [];
    SplitLeafrefs([v], below);
    AllEditsAppend([v], below);
    AllEditsOne(v);
    OwnEdit(parent, n, ctx);
    if n.ListNode? || n.Inner? {
      EnclosedBelow(parent, n, ctx);
      DfsParentsFirst(loc, n.children, ctx + VisitPlan(v).edits);
    }
    ParentsFirstAppend(ctx, VisitPlan(v).edits, AllEdits(below));
  }

  lemma AllEditsOne(v: Visit)
    ensures AllEdits([v]) == VisitPlan(v).edits
  {
    assert [v][..0] == [];
    assert AllEdits([]) == [];
  }

  lemma OwnEdit(parent: Location, n: DataNode, ctx: seq<Edit>)
    requires Enclosed(parent, ctx) && NoLeafref(VisitOf(parent + [SegmentOf(n)], n))
    ensures ParentsFirst(ctx, VisitPlan(VisitOf(parent + [SegmentOf(n)], n)).edits)
  {
    var loc := parent + [SegmentOf(n)];
    var es := VisitPlan(VisitOf(loc, n)).edits;
    assert loc[..|loc| - 1] == parent;
    if es != [] {
      OneEditOrNone(VisitOf(loc, n));
      assert es[..|es| - 1] == [] && ParentsFirst(ctx, []) && ctx + [] == ctx;
    }
  }

  lemma EnclosedBelow(parent: Location, n: DataNode, ctx: seq<Edit>)
    requires Enclosed(parent, ctx) && (n.ListNode? || n.Inner?)
    ensures var loc := parent + [SegmentOf(n)];
            Enclosed(loc, ctx + VisitPlan(VisitOf(loc, n)).edits)
  {
    var loc := parent + [SegmentOf(n)];
    var es := VisitPlan(VisitOf(loc, n)).edits;
    forall k | 0 < k <= |loc| && loc[k - 1].Entry?
      ensures EntryEdit(loc[..k]) in ctx + es
    {
      if k <= |parent| {
        assert loc[..k] == parent[..k];
      } else {
        assert loc[..k] == loc && es[0] == EntryEdit(loc);
      }
    }
  }

  lemma {:induction false} ParentsFirstPrefix(es: seq<Edit>, n: nat)
    requires n <= |es| && ParentsFirst([], es)
    ensures ParentsFirst([], es[..n])
  {
    if n < |es| {
      ParentsFirstPrefix(es[..|es| - 1], n);
      TakeTake(es, n);
    } else {
      assert es[..n] == es;
    }
  }

  /** Parents before children: whatever sysrepo answers, each edit applied by storeTree finds
      all the list entries that enclose it applied earlier. */
  lemma {:induction false} ParentsBeforeChildren<S>(env: Env<S>, st: SessionState<S>, tree: seq<DataNode>)
    requires NoLeafrefs(Dfs([], tree))
    ensures var plan := WalkPlan(Dfs([], tree));
            var r := Execute(env, st, plan);
            && r.st.staged == ApplyAll(env.effect, st.staged, plan.edits[..r.done])
            && ParentsFirst([], plan.edits[..r.done])
  {
    var visits := Dfs([], tree);
    var plan := WalkPlan(visits);
    var r := Execute(env, st, plan);
    IssueFolds(env, st, plan.edits);
    DfsParentsFirst([], tree, []);
    WalkPlanIsPrefix(visits);
    ParentsFirstPrefix(AllEdits(visits), r.done);
    assert AllEdits(visits)[..r.done] == plan.edits[..r.done];
  }
}
