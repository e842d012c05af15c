/** What a Set request writes and answers, in the client's terms. */
module SetMeaning {
  import opened Seqs
  import opened Gnmi
  import opened XPath
  import opened Session
  import opened Store
  import opened Walk
  import opened SetRpc
  import opened SetHistory

  // ---------------------------------------------------------------- what is written

  /** The value that a client of this value case would call `val`. */
  function ReadSet(kind: TypedValue, val: Val): Option<TypedValue> {
    match kind
    case KString(_) => if val.StringVal? then Some(KString(val.s)) else None
    case KInt(_) => if val.IntVal? && val.ty == INT64 then Some(KInt(val.n)) else None
    case KUint(_) => if val.IntVal? && val.ty == UINT64 && val.n >= 0 then Some(KUint(val.n)) else None
    case KBool(_) => if val.BoolVal? then Some(KBool(val.b)) else None
    case KFloat(_) => if val.DoubleVal? then Some(KFloat(val.x)) else None
    case _ => None
  }

  /** The text `xpath` is read as the prefix's steps followed by the path's. */
  predicate Addresses(xpath: string, prefix: Option<Path>, path: Path) {
    CleanPrefix(prefix) && CleanPath(path) ==> ReadSteps(xpath) == Some(PrefixSteps(prefix) + StepsOf(path))
  }

  /** The edits `es` are what an update asks for: none if it lacks a path or a value; those of
      the parsed tree, whatever the path, for JSON; and otherwise one, at the prefix and the
      path, of a value that is read back as the client's. */
  predicate AskedByUpdate(parse: Parser, prefix: Option<Path>, u: SetUpdate, es: seq<Edit>) {
    if u.path.None? || u.val.None? then es == []
    else
      match u.val.value
      case KJsonIetf(data) => parse(data).Ok? && es == AllEdits(parse(data).value)
      case v =>
        && |es| == 1 && es[0].SetItem? && es[0].target.AtText?
        && Addresses(es[0].target.xpath, prefix, u.path.value)
        && ReadSet(v, es[0].val) == Some(v)
  }

  predicate Asked(parse: Parser, prefix: Option<Path>, op: Op, es: seq<Edit>) {
    match op
    case Delete(path) => |es| == 1 && es[0].DeleteItem? && Addresses(es[0].xpath, prefix, path)
    case Replace(u) => AskedByUpdate(parse, prefix, u, es)
    case Update(u) => AskedByUpdate(parse, prefix, u, es)
  }

  lemma TextAddresses(prefix: Option<Path>, path: Path)
    ensures Addresses(PrefixText(prefix) + XPathOf(path), prefix, path)
  {
    if CleanPrefix(prefix) && CleanPath(path) {
      ReadUnderPrefix(prefix, path);
    }
  }

  lemma UpdateAsks(parse: Parser, prefix: Option<Path>, u: SetUpdate)
    requires UpdatePlan(parse, PrefixText(prefix), u).fault == None
    ensures AskedByUpdate(parse, prefix, u, UpdatePlan(parse, PrefixText(prefix), u).edits)
  {
    if u.path.Some? && u.val.Some? {
      TextAddresses(prefix, u.path.value);
      if u.val.value.KJsonIetf? {
        WalkPlanIsPrefix(parse(u.val.value.data).value);
      }
    }
  }

  lemma OpAsks(parse: Parser, prefix: Option<Path>, op: Op)
    requires OpPlan(parse, PrefixText(prefix), op).fault == None
    ensures Asked(parse, prefix, op, OpPlan(parse, PrefixText(prefix), op).edits)
  {
    match op {
      case Delete(path) => TextAddresses(prefix, path);
      case Replace(u) => UpdateAsks(parse, prefix, u);
      case Update(u) => UpdateAsks(parse, prefix, u);
    }
  }

  /** When a run goes through, no operation throws by itself. */
  lemma {:induction false} PlansGoThrough<S>(env: Env<S>, parse: Parser, prefix: string, st: SessionState<S>,
                                             ops: seq<Op>, i: nat)
    requires RunOps(env, parse, prefix, st, ops).status == OK && i < |ops|
    ensures OpPlan(parse, prefix, ops[i]).fault == None
  {
    if i < |ops| - 1 {
      PlansGoThrough(env, parse, prefix, st, ops[..|ops| - 1], i);
    }
  }

  function EditsByOp(parse: Parser, prefix: string, ops: seq<Op>): (parts: seq<seq<Edit>>)
    ensures |parts| == |ops|
  {
    seq(|ops|, i requires 0 <= i < |ops| => OpPlan(parse, prefix, ops[i]).edits)
  }

  lemma {:induction false} EditsJoin(parse: Parser, prefix: string, ops: seq<Op>)
    ensures Concat(EditsByOp(parse, prefix, ops)) == OpEdits(parse, prefix, ops)
  {
    if ops != [] {
      EditsJoin(parse, prefix, ops[..|ops| - 1]);
      assert EditsByOp(parse, prefix, ops)[..|ops| - 1] == EditsByOp(parse, prefix, ops[..|ops| - 1]);
    }
  }

  lemma {:induction false} RunOpsAsks<S>(env: Env<S>, parse: Parser, prefix: Option<Path>, st: SessionState<S>,
                                         ops: seq<Op>)
    returns (parts: seq<seq<Edit>>)
    requires RunOps(env, parse, PrefixText(prefix), st, ops).status == OK
    ensures Concat(parts) == RunOps(env, parse, PrefixText(prefix), st, ops).applied
    ensures |parts| == |ops| && forall i :: 0 <= i < |ops| ==> Asked(parse, prefix, ops[i], parts[i])
  {
    parts := EditsByOp(parse, PrefixText(prefix), ops);
    EditsJoin(parse, PrefixText(prefix), ops);
    RunOpsApplies(env, parse, PrefixText(prefix), st, ops);
    forall i | 0 <= i < |ops|
      ensures Asked(parse, prefix, ops[i], parts[i])
    {
      PlansGoThrough(env, parse, PrefixText(prefix), st, ops, i);
      OpAsks(parse, prefix, ops[i]);
    }
  }

  /** The operations of a request: deletes, then replaces, then updates. */
  function OpAt(req: SetRequest, i: nat): Op
    requires i < |req.deletions| + |req.replacements| + |req.updates|
  {
    var d, r := |req.deletions|, |req.replacements|;
    if i < d then Delete(req.deletions[i])
    else if i < d + r then Replace(req.replacements[i - d])
    else Update(req.updates[i - d - r])
  }

  lemma OpsInOrder(req: SetRequest)
    ensures forall i :: 0 <= i < |OpsOf(req)| ==> OpsOf(req)[i] == OpAt(req, i)
  {
  }

  /** What an OK request means: the datastore it commits is the fold, over the deletes, then the
      replaces, then the updates, of what each of them asks for. */
  lemma {:induction false} TransactionMeaning<S>(env: Env<S>, parse: Parser, st: SessionState<S>, req: SetRequest)
    returns (parts: seq<seq<Edit>>)
    requires RunSet(env, parse, st, req).status == OK
    ensures |parts| == |OpsOf(req)|
    ensures forall i :: 0 <= i < |parts| ==> Asked(parse, req.prefix, OpAt(req, i), parts[i])
    ensures RunSet(env, parse, st, req).st.running == ApplyAll(env.effect, st.staged, Concat(parts))
    ensures RunSet(env, parse, st, req).applied == Concat(parts)
  {
    parts := RunOpsAsks(env, parse, req.prefix, st, OpsOf(req));
    OpsInOrder(req);
    Transaction(env, parse, st, req);
  }

  // ---------------------------------------------------------------- what is answered

  predicate IsJson(op: Op) {
    match op
    case Delete(_) => false
    case Replace(u) => u.path.Some? && u.val.Some? && u.val.value.KJsonIetf?
    case Update(u) => u.path.Some? && u.val.Some? && u.val.value.KJsonIetf?
  }

  /** The status of a request whose operation `op` throws `f`. */
  predicate EndsWith(op: Op, f: Fault, status: Status) {
    && (op.Delete? && f != Undefined ==> status == INTERNAL)
    && (!op.Delete? && f == InvalidArgument ==> status == INVALID_ARGUMENT)
    && (!op.Delete? && f == RuntimeError && IsJson(op) ==> status == INVALID_ARGUMENT)
    && (op.Replace? && f == RuntimeError && !IsJson(op) ==> status == INTERNAL)
    && (!op.Delete? && f == SysrepoException ==> status == INTERNAL)
    && (op.Replace? && f == Other ==> status == INTERNAL)
    && (op.Update? && (f == Other || (f == RuntimeError && !IsJson(op))) ==> status == Escaped(f))
    && (f == Undefined ==> status == Escaped(Undefined))
  }

  lemma StatusEnds(op: Op, f: Fault)
    ensures EndsWith(op, f, OpStatus(op, Some(f)))
    ensures OpEntries(op, Some(f)) == if op.Delete? then [] else [UpdateResult(None, INVALID)]
  {
  }

  /** The operations end with operation `i`. */
  lemma {:induction false} OpsEnd<S>(env: Env<S>, parse: Parser, prefix: string, st: SessionState<S>, ops: seq<Op>,
                                     i: nat, f: Fault)
    requires i < |ops| && RunOps(env, parse, prefix, st, ops[..i]).status == OK
    requires var p := RunOps(env, parse, prefix, st, ops[..i]);
             Execute(env, p.st, OpPlan(parse, prefix, ops[i])).thrown == Some(f)
    ensures var p := RunOps(env, parse, prefix, st, ops[..i]);
            var plan := OpPlan(parse, prefix, ops[i]);
            var r := Execute(env, p.st, plan);
            RunOps(env, parse, prefix, st, ops) ==
            Progress(r.st, p.applied + plan.edits[..r.done], p.entries + OpEntries(ops[i], Some(f)),
                     OpStatus(ops[i], Some(f)))
  {
    assert ops[..i + 1][..i] == ops[..i];
    RunOpsStops(env, parse, prefix, st, ops, i + 1);
  }

  /** Operation `i`, the first of a request that throws, ends it: its exception decides the
      status; a replace or update leaves an entry without path and operation; nothing is
      committed and nothing of the later operations is applied. */
  lemma {:induction false} RequestEnds<S>(env: Env<S>, parse: Parser, st: SessionState<S>, req: SetRequest, i: nat,
                                          f: Fault)
    requires req.extensions == 0 && i < |OpsOf(req)|
    requires RunOps(env, parse, PrefixText(req.prefix), st, OpsOf(req)[..i]).status == OK
    requires var p := RunOps(env, parse, PrefixText(req.prefix), st, OpsOf(req)[..i]);
             Execute(env, p.st, OpPlan(parse, PrefixText(req.prefix), OpAt(req, i))).thrown == Some(f)
    ensures var before := RunOps(env, parse, PrefixText(req.prefix), st, OpsOf(req)[..i]);
            var plan := OpPlan(parse, PrefixText(req.prefix), OpAt(req, i));
            var p := RunSet(env, parse, st, req);
            && EndsWith(OpAt(req, i), f, p.status)
            && p.entries == before.entries + (if OpAt(req, i).Delete? then [] else [UpdateResult(None, INVALID)])
            && p.applied == before.applied + plan.edits[..Execute(env, before.st, plan).done]
            && p.st.running == st.running
  {
    OpsInOrder(req);
    OpsEnd(env, parse, PrefixText(req.prefix), st, OpsOf(req), i, f);
    StatusEnds(OpAt(req, i), f);
    Transaction(env, parse, st, req);
  }

  /** The exception that a complete update throws by itself: a value case that is not supported,
      or a JSON text that cannot be parsed. */
  function BadValue(parse: Parser, v: TypedValue): Option<Fault> {
    match v
    case KJsonIetf(data) =>
      (match parse(data)
       case Ok(_) => None
       case Throw(f) => Some(f))
    case KString(_) | KInt(_) | KUint(_) | KBool(_) | KFloat(_) => None
    case _ => Some(InvalidArgument)
  }

  lemma BadValuesThrow<S>(env: Env<S>, st: SessionState<S>, parse: Parser, prefix: string, u: SetUpdate)
    requires u.path.Some? && u.val.Some? && BadValue(parse, u.val.value).Some?
    ensures Execute(env, st, UpdatePlan(parse, prefix, u)) == Issued(st, 0, BadValue(parse, u.val.value))
  {
  }

  /** An unsupported value, or JSON that cannot be parsed, ends the request where it stands:
      nothing of it is applied, and the status tells the client whose fault it is. */
  lemma {:induction false} BadValueEndsRequest<S>(env: Env<S>, parse: Parser, st: SessionState<S>, req: SetRequest,
                                                  i: nat, u: SetUpdate, f: Fault)
    requires req.extensions == 0 && i < |OpsOf(req)|
    requires RunOps(env, parse, PrefixText(req.prefix), st, OpsOf(req)[..i]).status == OK
    requires OpAt(req, i) == Replace(u) || OpAt(req, i) == Update(u)
    requires u.path.Some? && u.val.Some? && BadValue(parse, u.val.value) == Some(f)
    ensures var before := RunOps(env, parse, PrefixText(req.prefix), st, OpsOf(req)[..i]);
            var p := RunSet(env, parse, st, req);
            && EndsWith(OpAt(req, i), f, p.status)
            && p.applied == before.applied && p.st.staged == before.st.staged && p.st.running == st.running
  {
    var before := RunOps(env, parse, PrefixText(req.prefix), st, OpsOf(req)[..i]);
    BadValuesThrow(env, before.st, parse, PrefixText(req.prefix), u);
    RequestEnds(env, parse, st, req, i, f);
    RunOpsFolds(env, parse, PrefixText(req.prefix), st, OpsOf(req)[..i]);
    Transaction(env, parse, st, req);
    EmptyRight(before.applied);
  }

  /** Extensions are refused before anything is done; otherwise, when every operation went
      through, the commit alone decides. */
  lemma CommitDecides<S>(env: Env<S>, parse: Parser, st: SessionState<S>, req: SetRequest)
    ensures req.extensions > 0 ==> RunSet(env, parse, st, req) == Progress(st, [], [], UNIMPLEMENTED)
    ensures var p := RunOps(env, parse, PrefixText(req.prefix), st, OpsOf(req));
            req.extensions == 0 && p.status == OK ==>
              match env.verdict(p.st.calls)
              case Accept => RunSet(env, parse, st, req).status == OK
              case Refuse(f) => f != Undefined ==> RunSet(env, parse, st, req).status == INTERNAL
  {
  }
}
