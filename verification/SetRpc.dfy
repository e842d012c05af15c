/** The Set RPC (src/gnmi/set.cpp). */
module SetRpc {
  import opened Seqs
  import opened Gnmi
  import opened XPath
  import opened Session
  import opened Store

  /** A gNMI TypedValue, by value case. */
  datatype TypedValue =
    | KString(s: string)
    | KInt(i: int)
    | KUint(u: nat)
    | KBool(b: bool)
    | KFloat(x: real)
    | KJsonIetf(data: string)
    | KBytes | KDecimal | KLeaflist | KAny | KJson | KAscii | KProtoBytes | KNotSet

  datatype SetUpdate = SetUpdate(path: Option<Path>, val: Option<TypedValue>)

  datatype SetRequest = SetRequest(
    prefix: Option<Path>,
    deletions: seq<Path>,
    replacements: seq<SetUpdate>,
    updates: seq<SetUpdate>,
    extensions: nat)

  datatype Operation = INVALID | DELETE | REPLACE | UPDATE

  datatype UpdateResult = UpdateResult(path: Option<Path>, op: Operation)

  /** A response that is filled in place. */
  class SetResponse {
    var timestamp: int
    var prefix: Option<Path>
    var response: seq<UpdateResult>

    constructor ()
      ensures prefix == None && response == []
    {
      timestamp, prefix, response := 0, None, [];
    }
  }

  /** libyang's JSON parser: the walk of the tree it makes of a text, or its exception. */
  type Parser = string -> Outcome<seq<Visit>>

  // ---------------------------------------------------------------- one update

  predicate Complete(u: SetUpdate) {
    u.path.Some? && u.val.Some?
  }

  /** Encode::json_update: the request path plays no part in it. */
  function JsonPlan(parse: Parser, data: string): Plan {
    match parse(data)
    case Throw(f) => Plan([], Some(f))
    case Ok(visits) => WalkPlan(visits)
  }

  /** What an update's value makes the session do at `xpath`. */
  function ValuePlan(parse: Parser, xpath: string, v: TypedValue): Plan {
    match v
    case KString(s) => Plan([SetItem(AtText(xpath), StringVal(s))], None)
    case KInt(i) => Plan([SetItem(AtText(xpath), IntVal(INT64, i))], None)
    case KUint(u) => Plan([SetItem(AtText(xpath), IntVal(UINT64, u))], None)
    case KBool(b) => Plan([SetItem(AtText(xpath), BoolVal(b))], None)
    case KFloat(x) => Plan([SetItem(AtText(xpath), DoubleVal(x))], None)
    case KJsonIetf(data) => JsonPlan(parse, data)
    case _ => Plan([], Some(InvalidArgument))
  }

  function UpdatePlan(parse: Parser, prefix: string, u: SetUpdate): Plan {
    if Complete(u) then ValuePlan(parse, prefix + XPathOf(u.path.value), u.val.value) else Plan([], None)
  }

  /** handleUpdate turns some exceptions of the JSON encoder into others. */
  function Rethrown(u: SetUpdate, thrown: Option<Fault>): Option<Fault> {
    if Complete(u) && u.val.value.KJsonIetf? && thrown == Some(RuntimeError) then Some(InvalidArgument) else thrown
  }

  method JsonUpdate<S>(session: Session<S>, parse: Parser, data: string) returns (thrown: Option<Fault>)
    modifies session
    ensures var r := Execute(session.env, old(session.State()), JsonPlan(parse, data));
            session.State() == r.st && thrown == r.thrown
  {
    var node := parse(data);
    if node.Throw? {
      return Some(node.fault);
    }
    thrown := StoreTree(session, node.value);
  }

  /** Set::handleUpdate.  The status code it returns is left out: its callers drop it. */
  method HandleUpdate<S>(session: Session<S>, parse: Parser, u: SetUpdate, prefix: string)
    returns (path: Option<Path>, thrown: Option<Fault>)
    modifies session
    ensures var r := Execute(session.env, old(session.State()), UpdatePlan(parse, prefix, u));
            session.State() == r.st && thrown == Rethrown(u, r.thrown)
    ensures path == if thrown == None && Complete(u) then u.path else None
  {
    path, thrown := None, None;
    if u.path.None? || u.val.None? {
      return;
    }
    var text := GnmiToXPath(u.path.value);
    var fullpath := prefix + text;
    var sval := NoVal;
    match u.val.value {
      case KString(s) => sval := StringVal(s);
      case KInt(i) => sval := IntVal(INT64, i);
      case KUint(n) => sval := IntVal(UINT64, n);
      case KBool(b) => sval := BoolVal(b);
      case KFloat(x) => sval := DoubleVal(x);
      case KJsonIetf(data) =>
        thrown := JsonUpdate(session, parse, data);
        if thrown == Some(RuntimeError) || thrown == Some(InvalidArgument) {
          thrown := Some(InvalidArgument);
        }
      case _ => thrown := Some(InvalidArgument);
    }
    if !u.val.value.KJsonIetf? && thrown == None {
      ExecuteOne(session.env, session.State(), SetItem(AtText(fullpath), sval));
      thrown := session.Submit(SetItem(AtText(fullpath), sval));
    }
    if thrown == None {
      path := u.path;
    }
  }

  // ---------------------------------------------------------------- one operation

  datatype Op = Delete(path: Path) | Replace(replace: SetUpdate) | Update(update: SetUpdate)

  function OpPlan(parse: Parser, prefix: string, op: Op): Plan {
    match op
    case Delete(path) => Plan([DeleteItem(prefix + XPathOf(path))], None)
    case Replace(u) => UpdatePlan(parse, prefix, u)
    case Update(u) => UpdatePlan(parse, prefix, u)
  }

  /** The status of a `catch (const exception &)` clause that answers INTERNAL. */
  function Internal(f: Fault): (s: Status)
    ensures s != OK
  {
    if f == Undefined then Escaped(f) else INTERNAL
  }

  /** The status an exception becomes.  Only the loop over replaces catches everything. */
  function OpStatus(op: Op, thrown: Option<Fault>): (s: Status)
    ensures s == OK <==> thrown == None
  {
    match thrown
    case None => OK
    case Some(f) =>
      match op
      case Delete(_) => Internal(f)
      case Replace(u) => if Rethrown(u, thrown) == Some(InvalidArgument) then INVALID_ARGUMENT else Internal(f)
      case Update(u) =>
        if Rethrown(u, thrown) == Some(InvalidArgument) then INVALID_ARGUMENT
        else if f == SysrepoException then INTERNAL
        else Escaped(f)
  }

  /** The entries an operation adds to the response. */
  function OpEntries(op: Op, thrown: Option<Fault>): seq<UpdateResult> {
    match op
    case Delete(path) => if thrown.Some? then [] else [UpdateResult(Some(path), DELETE)]
    case Replace(u) => [if thrown.Some? then UpdateResult(None, INVALID) else UpdateResult(Named(u), REPLACE)]
    case Update(u) => [if thrown.Some? then UpdateResult(None, INVALID) else UpdateResult(Named(u), UPDATE)]
  }

  function Named(u: SetUpdate): Option<Path> {
    if Complete(u) then u.path else None
  }

  // ---------------------------------------------------------------- the whole request

  function Deletions(paths: seq<Path>): (ops: seq<Op>)
    ensures |ops| == |paths| && forall i :: 0 <= i < |ops| ==> ops[i] == Delete(paths[i])
  {
    seq(|paths|, i requires 0 <= i < |paths| => Delete(paths[i]))
  }

  function Replacements(us: seq<SetUpdate>): (ops: seq<Op>)
    ensures |ops| == |us| && forall i :: 0 <= i < |ops| ==> ops[i] == Replace(us[i])
  {
    seq(|us|, i requires 0 <= i < |us| => Replace(us[i]))
  }

  function Updates(us: seq<SetUpdate>): (ops: seq<Op>)
    ensures |ops| == |us| && forall i :: 0 <= i < |ops| ==> ops[i] == Update(us[i])
  {
    seq(|us|, i requires 0 <= i < |us| => Update(us[i]))
  }

  function OpsOf(req: SetRequest): (ops: seq<Op>)
    ensures |ops| == |req.deletions| + |req.replacements| + |req.updates|
  {
    Deletions(req.deletions) + Replacements(req.replacements) + Updates(req.updates)
  }

  /** How far a request has got: the session, the edits it applied, its response, its status. */
  datatype Progress<S> = Progress(st: SessionState<S>, applied: seq<Edit>, entries: seq<UpdateResult>, status: Status)

  /** The operations in order, up to the first that throws. */
  function RunOps<S>(env: Env<S>, parse: Parser, prefix: string, st: SessionState<S>, ops: seq<Op>): Progress<S> {
    if ops == [] then Progress(st, [], [], OK)
    else
      var p := RunOps(env, parse, prefix, st, ops[..|ops| - 1]);
      if p.status != OK then p
      else
        var op := ops[|ops| - 1];
        var plan := OpPlan(parse, prefix, op);
        var r := Execute(env, p.st, plan);
        Progress(r.st, p.applied + plan.edits[..r.done], p.entries + OpEntries(op, r.thrown), OpStatus(op, r.thrown))
  }

  /** The request as a whole: its operations, then a commit if all of them went through. */
  function RunSet<S>(env: Env<S>, parse: Parser, st: SessionState<S>, req: SetRequest): Progress<S> {
    if req.extensions > 0 then Progress(st, [], [], UNIMPLEMENTED)
    else
      var p := RunOps(env, parse, PrefixText(req.prefix), st, OpsOf(req));
      if p.status != OK then p
      else
        var calls := p.st.calls + 1;
        match env.verdict(p.st.calls)
        case Accept => p.(st := p.st.(running := p.st.staged, calls := calls))
        case Refuse(f) => p.(st := p.st.(calls := calls), status := Internal(f))
  }

  lemma {:induction false} RunOpsStops<S>(env: Env<S>, parse: Parser, prefix: string, st: SessionState<S>,
                                          ops: seq<Op>, i: nat)
    requires i <= |ops| && RunOps(env, parse, prefix, st, ops[..i]).status != OK
    ensures RunOps(env, parse, prefix, st, ops) == RunOps(env, parse, prefix, st, ops[..i])
    decreases |ops| - i
  {
    if i < |ops| {
      assert ops[..i + 1][..i] == ops[..i];
      RunOpsStops(env, parse, prefix, st, ops, i + 1);
    } else {
      assert ops[..i] == ops;
    }
  }

  /** A progress carried on by another. */
  function Then<S>(p: Progress<S>, q: Progress<S>): Progress<S> {
    if p.status != OK then p else Progress(q.st, p.applied + q.applied, p.entries + q.entries, q.status)
  }

  lemma {:induction false} RunOpsAppend<S>(env: Env<S>, parse: Parser, prefix: string, st: SessionState<S>, a: seq<Op>,
                                           b: seq<Op>)
    ensures var p := RunOps(env, parse, prefix, st, a);
            RunOps(env, parse, prefix, st, a + b) == Then(p, RunOps(env, parse, prefix, p.st, b))
  {
    var p := RunOps(env, parse, prefix, st, a);
    if b == [] {
      EmptyRight(a);
      EmptyRight(p.applied);
      EmptyRight(p.entries);
    } else {
      var front, op := b[..|b| - 1], b[|b| - 1];
      RunOpsAppend(env, parse, prefix, st, a, front);
      AppendSnoc(a, b);
      var q := RunOps(env, parse, prefix, p.st, front);
      var plan := OpPlan(parse, prefix, op);
      var r := Execute(env, q.st, plan);
      Assoc(p.applied, q.applied, plan.edits[..r.done]);
      Assoc(p.entries, q.entries, OpEntries(op, r.thrown));
    }
  }

  /** One more operation, behind a response that began with `before`. */
  lemma OpNext<S>(env: Env<S>, parse: Parser, prefix: string, st: SessionState<S>, ops: seq<Op>, i: nat,
                  before: seq<UpdateResult>)
    requires i < |ops| && RunOps(env, parse, prefix, st, ops[..i]).status == OK
    ensures var p, q := RunOps(env, parse, prefix, st, ops[..i]), RunOps(env, parse, prefix, st, ops[..i + 1]);
            var r := Execute(env, p.st, OpPlan(parse, prefix, ops[i]));
            && q.st == r.st && q.status == OpStatus(ops[i], r.thrown)
            && before + q.entries == (before + p.entries) + OpEntries(ops[i], r.thrown)
    ensures var q := RunOps(env, parse, prefix, st, ops[..i + 1]);
            q.status != OK ==> RunOps(env, parse, prefix, st, ops) == q
  {
    var p, q := RunOps(env, parse, prefix, st, ops[..i]), RunOps(env, parse, prefix, st, ops[..i + 1]);
    var r := Execute(env, p.st, OpPlan(parse, prefix, ops[i]));
    assert ops[..i + 1][..i] == ops[..i];
    Assoc(before, p.entries, OpEntries(ops[i], r.thrown));
    if q.status != OK {
      RunOpsStops(env, parse, prefix, st, ops, i + 1);
    }
  }

  /** One round of the loop over deletes. */
  method RunDelete<S>(session: Session<S>, response: SetResponse, path: Path, prefix: string, ghost parse: Parser)
    returns (status: Status)
    modifies session, response`response
    ensures var op := Delete(path);
            var r := Execute(session.env, old(session.State()), OpPlan(parse, prefix, op));
            && session.State() == r.st
            && response.response == old(response.response) + OpEntries(op, r.thrown)
            && status == OpStatus(op, r.thrown)
  {
    var text := GnmiToXPath(path);
    var fullpath := prefix + text;
    ExecuteOne(session.env, session.State(), DeleteItem(fullpath));
    var thrown := session.Submit(DeleteItem(fullpath));
    if thrown.Some? {
      EmptyRight(response.response);
      return Internal(thrown.value);
    }
    response.response := response.response + [UpdateResult(Some(path), DELETE)];
    return OK;
  }

  /** One round of the loop over replaces. */
  method RunReplace<S>(session: Session<S>, response: SetResponse, parse: Parser, u: SetUpdate, prefix: string)
    returns (status: Status)
    modifies session, response`response
    ensures var op := Replace(u);
            var r := Execute(session.env, old(session.State()), OpPlan(parse, prefix, op));
            && session.State() == r.st
            && response.response == old(response.response) + OpEntries(op, r.thrown)
            && status == OpStatus(op, r.thrown)
  {
    var path, thrown := HandleUpdate(session, parse, u, prefix);
    if thrown.Some? {
      response.response := response.response + [UpdateResult(None, INVALID)];
      return if thrown.value == InvalidArgument then INVALID_ARGUMENT else Internal(thrown.value);
    }
    response.response := response.response + [UpdateResult(path, REPLACE)];
    return OK;
  }

  /** One round of the loop over updates. */
  method RunUpdate<S>(session: Session<S>, response: SetResponse, parse: Parser, u: SetUpdate, prefix: string)
    returns (status: Status)
    modifies session, response`response
    ensures var op := Update(u);
            var r := Execute(session.env, old(session.State()), OpPlan(parse, prefix, op));
            && session.State() == r.st
            && response.response == old(response.response) + OpEntries(op, r.thrown)
            && status == OpStatus(op, r.thrown)
  {
    var path, thrown := HandleUpdate(session, parse, u, prefix);
    if thrown.Some? {
      response.response := response.response + [UpdateResult(None, INVALID)];
      return if thrown.value == InvalidArgument then INVALID_ARGUMENT
             else if thrown.value == SysrepoException then INTERNAL
             else Escaped(thrown.value);
    }
    response.response := response.response + [UpdateResult(path, UPDATE)];
    return OK;
  }

  /** The loop over deletes. */
  method RunDeletions<S>(session: Session<S>, response: SetResponse, ghost parse: Parser, paths: seq<Path>,
                         prefix: string)
    returns (status: Status)
    modifies session, response`response
    ensures var p := RunOps(session.env, parse, prefix, old(session.State()), Deletions(paths));
            session.State() == p.st && response.response == old(response.response) + p.entries && status == p.status
  {
    ghost var st, before, ops := session.State(), response.response, Deletions(paths);
    EmptyRight(before);
    TakeAll(ops);
    for i := 0 to |paths|
      invariant RunOps(session.env, parse, prefix, st, ops[..i]).status == OK
      invariant RunOps(session.env, parse, prefix, st, ops[..i]).st == session.State()
      invariant response.response == before + RunOps(session.env, parse, prefix, st, ops[..i]).entries
    {
      OpNext(session.env, parse, prefix, st, ops, i, before);
      status := RunDelete(session, response, paths[i], prefix, parse);
      if status != OK {
        return;
      }
    }
    status := OK;
  }

  /** The loop over replaces. */
  method RunReplacements<S>(session: Session<S>, response: SetResponse, parse: Parser, us: seq<SetUpdate>,
                            prefix: string)
    returns (status: Status)
    modifies session, response`response
    ensures var p := RunOps(session.env, parse, prefix, old(session.State()), Replacements(us));
            session.State() == p.st && response.response == old(response.response) + p.entries && status == p.status
  {
    ghost var st, before, ops := session.State(), response.response, Replacements(us);
    EmptyRight(before);
    TakeAll(ops);
    for i := 0 to |us|
      invariant RunOps(session.env, parse, prefix, st, ops[..i]).status == OK
      invariant RunOps(session.env, parse, prefix, st, ops[..i]).st == session.State()
      invariant response.response == before + RunOps(session.env, parse, prefix, st, ops[..i]).entries
    {
      OpNext(session.env, parse, prefix, st, ops, i, before);
      status := RunReplace(session, response, parse, us[i], prefix);
      if status != OK {
        return;
      }
    }
    status := OK;
  }

  /** The loop over updates. */
  method RunUpdates<S>(session: Session<S>, response: SetResponse, parse: Parser, us: seq<SetUpdate>, prefix: string)
    returns (status: Status)
    modifies session, response`response
    ensures var p := RunOps(session.env, parse, prefix, old(session.State()), Updates(us));
            session.State() == p.st && response.response == old(response.response) + p.entries && status == p.status
  {
    ghost var st, before, ops := session.State(), response.response, Updates(us);
    EmptyRight(before);
    TakeAll(ops);
    for i := 0 to |us|
      invariant RunOps(session.env, parse, prefix, st, ops[..i]).status == OK
      invariant RunOps(session.env, parse, prefix, st, ops[..i]).st == session.State()
      invariant response.response == before + RunOps(session.env, parse, prefix, st, ops[..i]).entries
    {
      OpNext(session.env, parse, prefix, st, ops, i, before);
      status := RunUpdate(session, response, parse, us[i], prefix);
      if status != OK {
        return;
      }
    }
    status := OK;
  }

  lemma ThreeLoops<S>(env: Env<S>, parse: Parser, prefix: string, st: SessionState<S>, d: seq<Op>, r: seq<Op>,
                      u: seq<Op>)
    ensures var p := RunOps(env, parse, prefix, st, d);
            var q := RunOps(env, parse, prefix, p.st, r);
            RunOps(env, parse, prefix, st, d + r + u) == Then(Then(p, q), RunOps(env, parse, prefix, q.st, u))
  {
    RunOpsAppend(env, parse, prefix, st, d, r);
    RunOpsAppend(env, parse, prefix, st, d + r, u);
  }

  /** The three loops of Set::run, over one session and one response. */
  method RunLoops<S>(session: Session<S>, response: SetResponse, parse: Parser, req: SetRequest, prefix: string)
    returns (status: Status)
    requires response.response == []
    modifies session, response`response
    ensures var p := RunOps(session.env, parse, prefix, old(session.State()), OpsOf(req));
            session.State() == p.st && response.response == p.entries && status == p.status
  {
    ghost var d, r, u := Deletions(req.deletions), Replacements(req.replacements), Updates(req.updates);
    ghost var p := RunOps(session.env, parse, prefix, session.State(), d);
    ghost var q := RunOps(session.env, parse, prefix, p.st, r);
    ThreeLoops(session.env, parse, prefix, session.State(), d, r, u);
    status := RunDeletions(session, response, parse, req.deletions, prefix);
    EmptyLeft(p.entries);
    if status != OK {
      return;
    }
    status := RunReplacements(session, response, parse, req.replacements, prefix);
    assert response.response == Then(p, q).entries;
    if status != OK {
      return;
    }
    status := RunUpdates(session, response, parse, req.updates, prefix);
  }

  /** Set::run: the loops, then one commit. */
  method Run<S>(session: Session<S>, parse: Parser, req: SetRequest, response: SetResponse, now: int)
    returns (status: Status)
    requires response.prefix == None && response.response == []
    modifies session, response
    ensures var p := RunSet(session.env, parse, old(session.State()), req);
            session.State() == p.st && response.response == p.entries && status == p.status
    ensures response.prefix == if req.extensions > 0 then None else req.prefix
    ensures req.extensions == 0 ==> response.timestamp == now
  {
    if req.extensions > 0 {
      return UNIMPLEMENTED;
    }
    response.timestamp := now;
    var prefix := "";
    if req.prefix.Some? {
      prefix := GnmiToXPath(req.prefix.value);
      response.prefix := req.prefix;
    }
    status := RunLoops(session, response, parse, req, prefix);
    if status != OK {
      return;
    }
    var thrown := session.Commit();
    return if thrown.Some? then Internal(thrown.value) else OK;
  }
}
