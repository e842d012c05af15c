/** The write side of the sysrepo session that all RPCs share (src/gnmi/gnmi.h:65). */
module Session {
  import opened Seqs
  import opened Gnmi

  datatype IntType = INT8 | UINT8 | INT16 | UINT16 | INT32 | UINT32 | INT64 | UINT64

  /** A value handed to set_item.  `NoVal` is the null pointer. */
  datatype Val =
    | StringVal(s: string)
    | IntVal(ty: IntType, n: int)
    | BoolVal(b: bool)
    | DoubleVal(x: real)
    | IdentityVal(id: string)
    | EnumVal(e: string)
    | EmptyVal
    | ListVal
    | NoVal

  /** One segment of the path() of a libyang node; a list entry shows its key values. */
  datatype Segment = Plain(name: string) | Entry(name: string, keys: seq<Key>)

  type Location = seq<Segment>

  /** What an edit is addressed to: a text this server printed, or a libyang node's path. */
  datatype Target = AtText(xpath: string) | AtNode(loc: Location)

  datatype Edit = SetItem(target: Target, val: Val) | DeleteItem(xpath: string)

  /** sysrepo's answer to a call; `Refuse` carries the exception it throws. */
  datatype Verdict = Accept | Refuse(fault: Fault)

  /** Everything about sysrepo that the server does not decide: what an accepted edit does
      to a datastore, and how each call to the session, in order, is answered. */
  datatype Env<!S> = Env(effect: (S, Edit) -> S, verdict: nat -> Verdict)

  /** The datastore as edited in the session, the running one, and the calls made so far. */
  datatype SessionState<S> = SessionState(staged: S, running: S, calls: nat)

  /** The result of a run of edits: `done` of them were applied before `thrown`, if any. */
  datatype Issued<S> = Issued(st: SessionState<S>, done: nat, thrown: Option<Fault>)

  /** Issue edits one by one, up to the first that is refused. */
  function Issue<S>(env: Env<S>, st: SessionState<S>, edits: seq<Edit>): (r: Issued<S>)
    ensures r.done <= |edits| && (r.thrown == None <==> r.done == |edits|)
    ensures r.st.running == st.running
  {
    if edits == [] then Issued(st, 0, None)
    else
      var r := Issue(env, st, edits[..|edits| - 1]);
      if r.thrown.Some? then r
      else
        match env.verdict(r.st.calls)
        case Accept =>
          var staged := env.effect(r.st.staged, edits[|edits| - 1]);
          Issued(r.st.(staged := staged, calls := r.st.calls + 1), r.done + 1, None)
        case Refuse(f) => Issued(r.st.(calls := r.st.calls + 1), r.done, Some(f))
  }

  /** The left fold of edits over a datastore. */
  function ApplyAll<S>(effect: (S, Edit) -> S, s: S, edits: seq<Edit>): S {
    if edits == [] then s else effect(ApplyAll(effect, s, edits[..|edits| - 1]), edits[|edits| - 1])
  }

  /** Whatever sysrepo answers, the staged datastore is the fold of the edits it accepted,
      and those are the first `done` ones. */
  lemma {:induction false} IssueFolds<S>(env: Env<S>, st: SessionState<S>, edits: seq<Edit>)
    ensures var r := Issue(env, st, edits);
            r.st.staged == ApplyAll(env.effect, st.staged, edits[..r.done])
  {
    if edits != [] {
      var front := edits[..|edits| - 1];
      IssueFolds(env, st, front);
      var r := Issue(env, st, edits);
      if r.done < |edits| {
        TakeTake(edits, r.done);
      } else {
        assert edits[..r.done] == edits && front[..|front|] == front;
      }
    }
  }

  lemma {:induction false} ApplyAllAppend<S>(effect: (S, Edit) -> S, s: S, a: seq<Edit>, b: seq<Edit>)
    ensures ApplyAll(effect, s, a + b) == ApplyAll(effect, ApplyAll(effect, s, a), b)
  {
    if b == [] {
      assert a + b == a;
    } else {
      ApplyAllAppend(effect, s, a, b[..|b| - 1]);
      AppendSnoc(a, b);
    }
  }

  lemma {:induction false} IssueAppend<S>(env: Env<S>, st: SessionState<S>, a: seq<Edit>, b: seq<Edit>)
    ensures var r := Issue(env, st, a);
            Issue(env, st, a + b) ==
            if r.thrown.Some? then r
            else var q := Issue(env, r.st, b); q.(done := r.done + q.done)
  {
    if b == [] {
      assert a + b == a;
    } else {
      IssueAppend(env, st, a, b[..|b| - 1]);
      AppendSnoc(a, b);
    }
  }

  /** The session object. */
  class Session<S> {
    const env: Env<S>
    var staged: S
    var running: S
    var calls: nat

    constructor (env: Env<S>, data: S)
      ensures this.env == env && State() == SessionState(data, data, 0)
    {
      this.env := env;
      staged, running, calls := data, data, 0;
    }

    function State(): SessionState<S>
      reads this
    {
      SessionState(staged, running, calls)
    }

    /** set_item and delete_item: one edit, applied if it is accepted. */
    method Submit(edit: Edit) returns (thrown: Option<Fault>)
      modifies this
      ensures Issue(env, old(State()), [edit]) == Issued(State(), if thrown == None then 1 else 0, thrown)
    {
      ghost var st := State();
      assert [edit][..0] == [] && Issue(env, st, []) == Issued(st, 0, None);
      var verdict := env.verdict(calls);
      calls := calls + 1;
      match verdict {
        case Accept =>
          staged := env.effect(staged, edit);
          thrown := None;
        case Refuse(f) =>
          thrown := Some(f);
      }
    }

    /** commit: all or nothing. */
    method Commit() returns (thrown: Option<Fault>)
      modifies this
      ensures calls == old(calls) + 1 && staged == old(staged)
      ensures match env.verdict(old(calls))
              case Accept => thrown == None && running == staged
              case Refuse(f) => thrown == Some(f) && running == old(running)
    {
      var verdict := env.verdict(calls);
      calls := calls + 1;
      match verdict {
        case Accept =>
          running := staged;
          thrown := None;
        case Refuse(f) =>
          thrown := Some(f);
      }
    }
  }
}
