/** What Set requests do to the datastores: one request as a transaction, and any sequence
    of requests on the session that all RPCs share (src/gnmi/gnmi.h:65). */
module SetHistory {
  import opened Seqs
  import opened Gnmi
  import opened XPath
  import opened Session
  import opened Store
  import opened SetRpc

  // ---------------------------------------------------------------- the edits of a request

  function DeleteEdits(prefix: string, paths: seq<Path>): (es: seq<Edit>) {
    if paths == [] then []
    else DeleteEdits(prefix, paths[..|paths| - 1]) + [DeleteItem(prefix + XPathOf(paths[|paths| - 1]))]
  }

  function UpdateEdits(parse: Parser, prefix: string, us: seq<SetUpdate>): seq<Edit> {
    if us == [] then []
    else UpdateEdits(parse, prefix, us[..|us| - 1]) + UpdatePlan(parse, prefix, us[|us| - 1]).edits
  }

  /** All edits of a request: deletes, then replaces, then updates. */
  function RequestEdits(parse: Parser, req: SetRequest): seq<Edit> {
    var prefix := PrefixText(req.prefix);
    DeleteEdits(prefix, req.deletions)
    + UpdateEdits(parse, prefix, req.replacements)
    + UpdateEdits(parse, prefix, req.updates)
  }

  function OpEdits(parse: Parser, prefix: string, ops: seq<Op>): seq<Edit> {
    if ops == [] then [] else OpEdits(parse, prefix, ops[..|ops| - 1]) + OpPlan(parse, prefix, ops[|ops| - 1]).edits
  }

  lemma {:induction false} OpEditsAppend(parse: Parser, prefix: string, a: seq<Op>, b: seq<Op>)
    ensures OpEdits(parse, prefix, a + b) == OpEdits(parse, prefix, a) + OpEdits(parse, prefix, b)
  {
    if b == [] {
      EmptyRight(a);
      EmptyRight(OpEdits(parse, prefix, a));
    } else {
      OpEditsAppend(parse, prefix, a, b[..|b| - 1]);
      AppendSnoc(a, b);
      Assoc(OpEdits(parse, prefix, a), OpEdits(parse, prefix, b[..|b| - 1]), OpPlan(parse, prefix, b[|b| - 1]).edits);
    }
  }

  lemma {:induction false} EditsOfDeletions(parse: Parser, prefix: string, paths: seq<Path>)
    ensures OpEdits(parse, prefix, Deletions(paths)) == DeleteEdits(prefix, paths)
  {
    if paths != [] {
      EditsOfDeletions(parse, prefix, paths[..|paths| - 1]);
      assert Deletions(paths)[..|paths| - 1] == Deletions(paths[..|paths| - 1]);
    }
  }

  lemma {:induction false} EditsOfReplacements(parse: Parser, prefix: string, us: seq<SetUpdate>)
    ensures OpEdits(parse, prefix, Replacements(us)) == UpdateEdits(parse, prefix, us)
  {
    if us != [] {
      EditsOfReplacements(parse, prefix, us[..|us| - 1]);
      assert Replacements(us)[..|us| - 1] == Replacements(us[..|us| - 1]);
    }
  }

  lemma {:induction false} EditsOfUpdates(parse: Parser, prefix: string, us: seq<SetUpdate>)
    ensures OpEdits(parse, prefix, Updates(us)) == UpdateEdits(parse, prefix, us)
  {
    if us != [] {
      EditsOfUpdates(parse, prefix, us[..|us| - 1]);
      assert Updates(us)[..|us| - 1] == Updates(us[..|us| - 1]);
    }
  }

  lemma OpEditsAreRequestEdits(parse: Parser, req: SetRequest)
    ensures OpEdits(parse, PrefixText(req.prefix), OpsOf(req)) == RequestEdits(parse, req)
  {
    var prefix := PrefixText(req.prefix);
    var d, r, u := Deletions(req.deletions), Replacements(req.replacements), Updates(req.updates);
    OpEditsAppend(parse, prefix, d + r, u);
    OpEditsAppend(parse, prefix, d, r);
    EditsOfDeletions(parse, prefix, req.deletions);
    EditsOfReplacements(parse, prefix, req.replacements);
    EditsOfUpdates(parse, prefix, req.updates);
  }

  // ---------------------------------------------------------------- one request

  /** Whatever happens, the staged datastore is the fold of the edits that were applied. */
  lemma {:induction false} RunOpsFolds<S>(env: Env<S>, parse: Parser, prefix: string, st: SessionState<S>, ops: seq<Op>)
    ensures var p := RunOps(env, parse, prefix, st, ops);
            p.st.staged == ApplyAll(env.effect, st.staged, p.applied) && p.st.running == st.running
  {
    if ops != [] {
      var front, op := ops[..|ops| - 1], ops[|ops| - 1];
      RunOpsFolds(env, parse, prefix, st, front);
      var p := RunOps(env, parse, prefix, st, front);
      if p.status == OK {
        var plan := OpPlan(parse, prefix, op);
        var r := Execute(env, p.st, plan);
        IssueFolds(env, p.st, plan.edits);
        ApplyAllAppend(env.effect, st.staged, p.applied, plan.edits[..r.done]);
      }
    }
  }

  /** A run that goes through applies all edits of its operations. */
  lemma {:induction false} RunOpsApplies<S>(env: Env<S>, parse: Parser, prefix: string, st: SessionState<S>,
                                            ops: seq<Op>)
    requires RunOps(env, parse, prefix, st, ops).status == OK
    ensures RunOps(env, parse, prefix, st, ops).applied == OpEdits(parse, prefix, ops)
  {
    if ops != [] {
      RunOpsApplies(env, parse, prefix, st, ops[..|ops| - 1]);
      TakeAll(OpPlan(parse, prefix, ops[|ops| - 1]).edits);
    }
  }

  /** Entry `e` names the path and the kind of operation `op`. */
  predicate Faithful(e: UpdateResult, op: Op) {
    match op
    case Delete(path) => e == UpdateResult(Some(path), DELETE)
    case Replace(u) => u.path.Some? && e == UpdateResult(u.path, REPLACE)
    case Update(u) => u.path.Some? && e == UpdateResult(u.path, UPDATE)
  }

  predicate Reports(es: seq<UpdateResult>, ops: seq<Op>) {
    |es| == |ops| && forall i :: 0 <= i < |ops| ==> Faithful(es[i], ops[i])
  }

  predicate AllComplete(req: SetRequest) {
    && (forall i :: 0 <= i < |req.replacements| ==> Complete(req.replacements[i]))
    && (forall i :: 0 <= i < |req.updates| ==> Complete(req.updates[i]))
  }

  predicate Whole(op: Op) {
    match op
    case Delete(_) => true
    case Replace(u) => Complete(u)
    case Update(u) => Complete(u)
  }

  /** The entries of operations that all go through. */
  function OkEntries(ops: seq<Op>): seq<UpdateResult> {
    if ops == [] then [] else OkEntries(ops[..|ops| - 1]) + OpEntries(ops[|ops| - 1], None)
  }

  lemma {:induction false} RunOpsReports<S>(env: Env<S>, parse: Parser, prefix: string, st: SessionState<S>,
                                            ops: seq<Op>)
    requires RunOps(env, parse, prefix, st, ops).status == OK
    ensures RunOps(env, parse, prefix, st, ops).entries == OkEntries(ops)
  {
    if ops != [] {
      RunOpsReports(env, parse, prefix, st, ops[..|ops| - 1]);
    }
  }

  /** There is one entry per operation; it is faithful unless the operation's update lacks a
      path or a value. */
  lemma {:induction false} OkEntriesFaithful(ops: seq<Op>)
    ensures |OkEntries(ops)| == |ops|
    ensures forall i :: 0 <= i < |ops| ==> (Faithful(OkEntries(ops)[i], ops[i]) <==> Whole(ops[i]))
  {
    if ops != [] {
      OkEntriesFaithful(ops[..|ops| - 1]);
    }
  }

  lemma EntriesOf<S>(env: Env<S>, parse: Parser, prefix: string, st: SessionState<S>, ops: seq<Op>)
    requires RunOps(env, parse, prefix, st, ops).status == OK
    ensures Reports(RunOps(env, parse, prefix, st, ops).entries, ops) <==> AllWhole(ops)
  {
    RunOpsReports(env, parse, prefix, st, ops);
    OkEntriesFaithful(ops);
  }

  predicate AllWhole(ops: seq<Op>) {
    forall i :: 0 <= i < |ops| ==> Whole(ops[i])
  }

  lemma WholeAppend(a: seq<Op>, b: seq<Op>)
    ensures AllWhole(a + b) <==> AllWhole(a) && AllWhole(b)
  {
    assert forall i :: 0 <= i < |a| ==> a[i] == (a + b)[i];
    assert forall i :: 0 <= i < |b| ==> b[i] == (a + b)[|a| + i];
  }

  lemma WholeUpdates(us: seq<SetUpdate>)
    ensures AllWhole(Replacements(us)) <==> forall i :: 0 <= i < |us| ==> Complete(us[i])
    ensures AllWhole(Updates(us)) <==> forall i :: 0 <= i < |us| ==> Complete(us[i])
  {
    assert forall i :: 0 <= i < |us| ==> Whole(Replacements(us)[i]) == Complete(us[i]);
    assert forall i :: 0 <= i < |us| ==> Whole(Updates(us)[i]) == Complete(us[i]);
  }

  lemma WholeMeansComplete(req: SetRequest)
    ensures AllWhole(OpsOf(req)) <==> AllComplete(req)
  {
    var d, r, u := Deletions(req.deletions), Replacements(req.replacements), Updates(req.updates);
    WholeAppend(d + r, u);
    WholeAppend(d, r);
    WholeUpdates(req.replacements);
    WholeUpdates(req.updates);
  }

  /** Set as one transaction.  OK means that the staged datastore is the fold of deletes, then
      replaces, then updates, and that it was committed; the response then reports exactly
      those operations, in order, if and only if every update came with a path and a value.
      Any other status leaves the running datastore as it was. */
  lemma Transaction<S>(env: Env<S>, parse: Parser, st: SessionState<S>, req: SetRequest)
    ensures var p := RunSet(env, parse, st, req);
            && p.st.staged == ApplyAll(env.effect, st.staged, p.applied)
            && (p.status == OK ==>
                  && p.applied == RequestEdits(parse, req)
                  && p.st.running == p.st.staged
                  && (Reports(p.entries, OpsOf(req)) <==> AllComplete(req)))
            && (p.status != OK ==> p.st.running == st.running)
  {
    var prefix := PrefixText(req.prefix);
    RunOpsFolds(env, parse, prefix, st, OpsOf(req));
    OpEditsAreRequestEdits(parse, req);
    if RunOps(env, parse, prefix, st, OpsOf(req)).status == OK {
      RunOpsApplies(env, parse, prefix, st, OpsOf(req));
      EntriesOf(env, parse, prefix, st, OpsOf(req));
      WholeMeansComplete(req);
    }
  }

  // ---------------------------------------------------------------- any number of requests

  /** The session after some requests: all edits applied to it so far, those among them that
      the last OK request committed, and whether all requests were OK. */
  datatype Log<S> = Log(st: SessionState<S>, edits: seq<Edit>, committed: seq<Edit>, allOk: bool)

  function Serve<S>(env: Env<S>, parse: Parser, log: Log<S>, req: SetRequest): Log<S> {
    var p := RunSet(env, parse, log.st, req);
    var edits := log.edits + p.applied;
    Log(p.st, edits, if p.status == OK then edits else log.committed, log.allOk && p.status == OK)
  }

  function ServeAll<S>(env: Env<S>, parse: Parser, st: SessionState<S>, reqs: seq<SetRequest>): Log<S> {
    if reqs == [] then Log(st, [], [], true)
    else Serve(env, parse, ServeAll(env, parse, st, reqs[..|reqs| - 1]), reqs[|reqs| - 1])
  }

  ghost predicate IsHistory<S>(effect: (S, Edit) -> S, s: S, log: Log<S>) {
    && log.st.staged == ApplyAll(effect, s, log.edits)
    && log.st.running == ApplyAll(effect, s, log.committed)
    && |log.committed| <= |log.edits| && log.edits[..|log.committed|] == log.committed
  }

  /** One more request keeps the history; the running datastore changes only if it is OK,
      and then to the fold of everything applied so far, failed requests included. */
  lemma ServeKeepsHistory<S>(env: Env<S>, parse: Parser, s: S, log: Log<S>, req: SetRequest)
    requires IsHistory(env.effect, s, log)
    ensures var after := Serve(env, parse, log, req);
            var ok := RunSet(env, parse, log.st, req).status == OK;
            && IsHistory(env.effect, s, after)
            && after.st.running == (if ok then ApplyAll(env.effect, s, after.edits) else log.st.running)
  {
    var p := RunSet(env, parse, log.st, req);
    Transaction(env, parse, log.st, req);
    ApplyAllAppend(env.effect, s, log.edits, p.applied);
    TakeOfAppend(log.edits, p.applied, |log.committed|);
    TakeAll(log.edits + p.applied);
  }

  /** Multi-request history: over any sequence of Set requests, the staged datastore is the
      fold of all edits ever applied, and the running one the fold of those applied up to
      the last OK request, whether the requests that applied them were OK or not. */
  lemma {:induction false} History<S>(env: Env<S>, parse: Parser, s: S, calls: nat, reqs: seq<SetRequest>)
    ensures IsHistory(env.effect, s, ServeAll(env, parse, SessionState(s, s, calls), reqs))
  {
    if reqs != [] {
      History(env, parse, s, calls, reqs[..|reqs| - 1]);
      var log := ServeAll(env, parse, SessionState(s, s, calls), reqs[..|reqs| - 1]);
      ServeKeepsHistory(env, parse, s, log, reqs[|reqs| - 1]);
    }
  }

  function AllEditsOf(parse: Parser, reqs: seq<SetRequest>): seq<Edit> {
    if reqs == [] then [] else AllEditsOf(parse, reqs[..|reqs| - 1]) + RequestEdits(parse, reqs[|reqs| - 1])
  }

  lemma {:induction false} AllOkEdits<S>(env: Env<S>, parse: Parser, st: SessionState<S>, reqs: seq<SetRequest>)
    requires ServeAll(env, parse, st, reqs).allOk
    ensures ServeAll(env, parse, st, reqs).edits == AllEditsOf(parse, reqs)
    ensures ServeAll(env, parse, st, reqs).committed == AllEditsOf(parse, reqs)
  {
    if reqs != [] {
      var front := reqs[..|reqs| - 1];
      AllOkEdits(env, parse, st, front);
      Transaction(env, parse, ServeAll(env, parse, st, front).st, reqs[|reqs| - 1]);
    }
  }

  /** If every request is OK, the running datastore is their sequential composition. */
  lemma {:induction false} AllOkComposes<S>(env: Env<S>, parse: Parser, s: S, calls: nat, reqs: seq<SetRequest>)
    requires ServeAll(env, parse, SessionState(s, s, calls), reqs).allOk
    ensures ServeAll(env, parse, SessionState(s, s, calls), reqs).st.running ==
            ApplyAll(env.effect, s, AllEditsOf(parse, reqs))
  {
    History(env, parse, s, calls, reqs);
    AllOkEdits(env, parse, SessionState(s, s, calls), reqs);
  }

  /** A failed request is not undone: the next OK request commits what it had applied. */
  lemma FailedEditsAreCommitted<S>(env: Env<S>, parse: Parser, s: S, calls: nat, failed: SetRequest, next: SetRequest)
    requires var st := SessionState(s, s, calls);
             && RunSet(env, parse, st, failed).status != OK
             && RunSet(env, parse, RunSet(env, parse, st, failed).st, next).status == OK
    ensures var p := RunSet(env, parse, SessionState(s, s, calls), failed);
            && p.st.running == s
            && RunSet(env, parse, p.st, next).st.running ==
               ApplyAll(env.effect, s, p.applied + RequestEdits(parse, next))
  {
    var st := SessionState(s, s, calls);
    var p := RunSet(env, parse, st, failed);
    Transaction(env, parse, st, failed);
    Transaction(env, parse, p.st, next);
    ApplyAllAppend(env.effect, s, p.applied, RequestEdits(parse, next));
  }

  // ---------------------------------------------------------------- what a failed request leaves

  /** What operations ask the session for, up to the first that throws by itself. */
  function OpsPlan(parse: Parser, prefix: string, ops: seq<Op>): Plan {
    if ops == [] then Plan([], None)
    else
      var p := OpsPlan(parse, prefix, ops[..|ops| - 1]);
      if p.fault.Some? then p
      else
        var q := OpPlan(parse, prefix, ops[|ops| - 1]);
        Plan(p.edits + q.edits, q.fault)
  }

  function RequestPlan(parse: Parser, req: SetRequest): Plan {
    if req.extensions > 0 then Plan([], None) else OpsPlan(parse, PrefixText(req.prefix), OpsOf(req))
  }

  lemma TakeMore<T>(a: seq<T>, b: seq<T>, n: nat)
    requires n <= |b|
    ensures (a + b)[..|a| + n] == a + b[..n]
  {
  }

  /** Running operations is carrying out their plan. */
  lemma {:induction false} RunOpsIsPlan<S>(env: Env<S>, parse: Parser, prefix: string, st: SessionState<S>,
                                           ops: seq<Op>)
    ensures var p := RunOps(env, parse, prefix, st, ops);
            var plan := OpsPlan(parse, prefix, ops);
            var r := Execute(env, st, plan);
            p.st == r.st && p.applied == plan.edits[..r.done] && (p.status == OK <==> r.thrown == None)
  {
    if ops != [] {
      var front := ops[..|ops| - 1];
      var p, q := OpsPlan(parse, prefix, front), OpPlan(parse, prefix, ops[|ops| - 1]);
      RunOpsIsPlan(env, parse, prefix, st, front);
      if p.fault.None? {
        var r := Execute(env, st, p);
        ExecuteJoin(env, st, p, q);
        TakeOfAppend(p.edits, q.edits, r.done);
        if r.thrown.None? {
          TakeAll(p.edits);
          TakeMore(p.edits, q.edits, Execute(env, r.st, q).done);
        }
      }
    }
  }

  lemma {:induction false} FirstCallDecides<S>(env: Env<S>, st: SessionState<S>, edits: seq<Edit>)
    ensures Issue(env, st, edits).done == 0 <==> edits == [] || env.verdict(st.calls).Refuse?
    ensures Issue(env, st, edits).st.calls >= st.calls + Issue(env, st, edits).done
  {
    if edits != [] {
      FirstCallDecides(env, st, edits[..|edits| - 1]);
    }
  }

  /** A request leaves no edit behind if and only if it asks for none or the first call it
      makes is refused. */
  lemma NoResidue<S>(env: Env<S>, parse: Parser, st: SessionState<S>, req: SetRequest)
    ensures RunSet(env, parse, st, req).applied == [] <==>
            RequestPlan(parse, req).edits == [] || env.verdict(st.calls).Refuse?
  {
    if req.extensions == 0 {
      RunOpsIsPlan(env, parse, PrefixText(req.prefix), st, OpsOf(req));
      FirstCallDecides(env, st, RequestPlan(parse, req).edits);
    }
  }

  /** The first call of a request goes through and no other does. */
  function OnlyFirst(calls: nat): nat -> Verdict {
    n => if n == calls then Accept else Refuse(SysrepoException)
  }

  lemma OnlyFirstFails<S>(effect: (S, Edit) -> S, parse: Parser, st: SessionState<S>, req: SetRequest)
    requires RequestPlan(parse, req).edits != []
    ensures var p := RunSet(Env(effect, OnlyFirst(st.calls)), parse, st, req);
            p.status != OK && p.applied != []
  {
    var env := Env(effect, OnlyFirst(st.calls));
    NoResidue(env, parse, st, req);
    RunOpsIsPlan(env, parse, PrefixText(req.prefix), st, OpsOf(req));
    FirstCallDecides(env, st, RequestPlan(parse, req).edits);
  }

  /** A Set is atomic, that is, leaves nothing behind whenever it fails, whatever sysrepo
      answers, if and only if it asks the session for no edit at all. */
  lemma AtomicIffNoEdits<S>(effect: (S, Edit) -> S, parse: Parser, st: SessionState<S>, req: SetRequest)
    ensures (forall verdict: nat -> Verdict ::
               var p := RunSet(Env(effect, verdict), parse, st, req);
               p.status != OK ==> p.applied == [])
       <==> RequestPlan(parse, req).edits == []
  {
    if RequestPlan(parse, req).edits == [] {
      forall verdict: nat -> Verdict
        ensures RunSet(Env(effect, verdict), parse, st, req).applied == []
      {
        NoResidue(Env(effect, verdict), parse, st, req);
      }
    } else {
      OnlyFirstFails(effect, parse, st, req);
    }
  }

  /** A witness: of two deletes the second is refused.  The request fails, and a request with
      nothing in it then commits the first delete. */
  lemma HalfDoneDeletes<S>(effect: (S, Edit) -> S, parse: Parser, s: S, a: Path, b: Path)
    ensures var env := Env(effect, (n: nat) => if n == 1 then Refuse(SysrepoException) else Accept);
            var p := RunSet(env, parse, SessionState(s, s, 0), SetRequest(None, [a, b], [], [], 0));
            var q := RunSet(env, parse, p.st, SetRequest(None, [], [], [], 0));
            && p.status == INTERNAL && p.applied == [DeleteItem(XPathOf(a))] && p.st.running == s
            && q.status == OK && q.st.running == effect(s, DeleteItem(XPathOf(a)))
  {
    var env := Env(effect, (n: nat) => if n == 1 then Refuse(SysrepoException) else Accept);
    var st := SessionState(s, s, 0);
    var first, second := DeleteItem("" + XPathOf(a)), DeleteItem("" + XPathOf(b));
    EmptyLeft(XPathOf(a));
    OneDelete(env, parse, st, a);
    OneDelete(env, parse, RunOps(env, parse, "", st, [Delete(a)]).st, b);
    RunOpsAppend(env, parse, "", st, [Delete(a)], [Delete(b)]);
    assert OpsOf(SetRequest(None, [a, b], [], [], 0)) == [Delete(a)] + [Delete(b)];
    assert OpsOf(SetRequest(None, [], [], [], 0)) == [];
  }

  lemma OneDelete<S>(env: Env<S>, parse: Parser, st: SessionState<S>, path: Path)
    ensures var p := RunOps(env, parse, "", st, [Delete(path)]);
            var e := DeleteItem("" + XPathOf(path));
            match env.verdict(st.calls)
            case Accept =>
              && p.st == st.(staged := env.effect(st.staged, e), calls := st.calls + 1)
              && p.applied == [e] && p.status == OK
            case Refuse(f) => p.st == st.(calls := st.calls + 1) && p.applied == [] && p.status == Internal(f)
  {
    var e := DeleteItem("" + XPathOf(path));
    assert [Delete(path)][..0] == [] && [e][..0] == [] && [e][..1] == [e];
    assert Issue(env, st, []) == Issued(st, 0, None);
    assert RunOps(env, parse, "", st, []) == Progress(st, [], [], OK);
  }
}
