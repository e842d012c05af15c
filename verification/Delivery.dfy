/** What clients are sent when the datastore is a given tree: the updates of Get notifications
    and of Subscribe responses, in terms of the nodes that the requested paths select. */
module Delivery {
  import opened Seqs
  import opened Gnmi
  import opened XPath
  import opened Json
  import opened Reader
  import opened Messages
  import opened Get
  import opened Notify
  import opened Subscribe
  import opened Selection
  import opened SelfAddressing

  /** After `version` refreshes, sysrepo's data are the tree with top-level nodes `roots`. */
  ghost predicate Serves(answer: (nat, string) -> Subtrees, version: nat, sees: Resolver, roots: seq<Node>) {
    forall x: string :: answer(version, x) == Lookup(sees, roots, x)
  }

  /** What the steps `ss` should be answered with, for a client that asked for `path`. */
  function Selected(sees: Resolver, roots: seq<Node>, ss: seq<Step>, path: Path): Outcome<seq<Update>> {
    if ss == [] then Throw(SysrepoException)
    else if Select(sees, roots, ss) == [] then Throw(InvalidArgument)
    else Answer(path, Trees(Select(sees, roots, ss)))
  }

  /** The updates `us` are those of the nodes `found`, one each and in order: each holds its
      node's JSON, and unless a list instance came before, goes by the path asked for. */
  predicate UpdatesAre(us: seq<Update>, path: Path, found: seq<Node>) {
    && |us| == |found|
    && forall i :: 0 <= i < |us| ==>
         && us[i].val.Some? && Encode(Kids(found[i])) == Ok(us[i].val.value)
         && (LastList(found, i).None? ==> us[i].path == path)
         && (WellKeyed(found[i]) && path.elems != [] ==> us[i].path == PutLastKey(path, KeyOf(found[i])))
  }

  lemma AnswerHolds(path: Path, found: seq<Node>)
    requires Answer(path, Trees(found)).Ok?
    ensures UpdatesAre(Answer(path, Trees(found)).value, path, found)
  {
    var us := Answer(path, Trees(found)).value;
    assert |us| == |found|;
    forall i | 0 <= i < |us|
      ensures us[i].val.Some? && Encode(Kids(found[i])) == Ok(us[i].val.value)
      ensures LastList(found, i).None? ==> us[i].path == path
      ensures WellKeyed(found[i]) && path.elems != [] ==> us[i].path == PutLastKey(path, KeyOf(found[i]))
    {
      AnswerAt(path, found, i);
      if WellKeyed(found[i]) {
        KeyPairIsKey(found[i]);
      }
    }
  }

  /** A text is answered with what the steps it reads as select. */
  lemma TextSelects(answer: (nat, string) -> Subtrees, version: nat, sees: Resolver, roots: seq<Node>,
                    text: string, ss: seq<Step>, path: Path)
    requires Serves(answer, version, sees, roots) && ReadSteps(text) == Some(ss)
    ensures Answer(path, answer(version, text)) == Selected(sees, roots, ss, path)
  {
    assert answer(version, text) == Lookup(sees, roots, text);
  }

  // ---------------------------------------------------------------- Get

  /** The self-addressing theorems are about what Get answers. */
  lemma PathAnswerIsReply(answer: (nat, string) -> Subtrees, version: nat, sees: Resolver, roots: seq<Node>,
                          prefix: Option<Path>, path: Path)
    requires Serves(answer, version, sees, roots)
    ensures PathAnswer(answer, version, prefix, path) == Reply(sees, roots, prefix, path)
  {
  }

  /** A path is answered with what the prefix's steps followed by its own select. */
  lemma GetReads(answer: (nat, string) -> Subtrees, version: nat, sees: Resolver, roots: seq<Node>,
                 prefix: Option<Path>, path: Path)
    requires Serves(answer, version, sees, roots) && CleanPrefix(prefix) && CleanPath(path)
    ensures PathAnswer(answer, version, prefix, path) ==
            Selected(sees, roots, PrefixSteps(prefix) + StepsOf(path), path)
  {
    ReadUnderPrefix(prefix, path);
    TextSelects(answer, version, sees, roots, FullPath(prefix, path), PrefixSteps(prefix) + StepsOf(path), path);
  }

  /** What Get's j-th notification holds: one update for each node that the prefix's steps
      followed by the path's select. */
  lemma NotificationHolds(answer: (nat, string) -> Subtrees, version: nat, sees: Resolver, roots: seq<Node>,
                          req: GetRequest, ns: seq<Notice>, j: nat)
    requires AllAnswered(ns, answer, version, req) && j < |ns|
    requires Serves(answer, version + j + 1, sees, roots) && CleanPrefix(req.prefix) && CleanPath(req.paths[j])
    ensures var ss := PrefixSteps(req.prefix) + StepsOf(req.paths[j]);
            && ns[j].prefix == req.prefix
            && ss != [] && Select(sees, roots, ss) != []
            && UpdatesAre(ns[j].updates, req.paths[j], Select(sees, roots, ss))
  {
    assert Answers(ns[j], answer, version + j + 1, req.prefix, req.paths[j]);
    GetReads(answer, version + j + 1, sees, roots, req.prefix, req.paths[j]);
    AnswerHolds(req.paths[j], Select(sees, roots, PrefixSteps(req.prefix) + StepsOf(req.paths[j])));
  }

  /** Why a path is not answered: a path that selects nothing is NOT_FOUND, one that sysrepo
      refuses to read is an INVALID_ARGUMENT. */
  lemma WhyUnanswered(answer: (nat, string) -> Subtrees, version: nat, sees: Resolver, roots: seq<Node>,
                      prefix: Option<Path>, path: Path, status: Status)
    requires Serves(answer, version, sees, roots) && CleanPrefix(prefix) && CleanPath(path)
    ensures var ss := PrefixSteps(prefix) + StepsOf(path);
            && (ss != [] && Select(sees, roots, ss) == [] ==>
                  (FailsWith(answer, version, prefix, path, status) <==> status == NOT_FOUND))
            && (ss == [] ==> (FailsWith(answer, version, prefix, path, status) <==> status == INVALID_ARGUMENT))
  {
    GetReads(answer, version, sees, roots, prefix, path);
  }

  /** A subtree with an unsupported node among its children is NOT_FOUND, too, when everything
      before that node can be encoded. */
  lemma UnsupportedIsNotFound(path: Path, found: seq<Node>, k: nat, c: nat)
    requires k < |found| && ReadTrees(found[..k]).Ok?
    requires c < |Kids(found[k])| && Kids(found[k])[c].Unsupported? && Encode(Kids(found[k])[..c]).Ok?
    ensures Answer(path, Trees(found)).Throw? && ReadStatus(Answer(path, Trees(found)).fault) == NOT_FOUND
  {
    var cs := Kids(found[k]);
    assert cs[..c + 1][..c] == cs[..c];
    EncodeStops(cs, c + 1);
    FirstUnreadTree(path, found, k, InvalidArgument);
  }

  lemma {:induction false} FirstUnreadTree(path: Path, found: seq<Node>, k: nat, f: Fault)
    requires k < |found| && ReadTrees(found[..k]).Ok?
    requires ReadTree(LastKey(ReadTrees(found[..k]).value), found[k]) == Throw(f)
    ensures Answer(path, Trees(found)) == Throw(f)
  {
    assert found[..k + 1][..k] == found[..k];
    ReadTreesStops(found, k + 1);
  }

  /** What no handler expects leaves the RPC as an exception: a node on whose children the JSON
      loop fails although each of them can be encoded, and a list instance without children. */
  lemma {:induction false} Escapes(path: Path, found: seq<Node>, k: nat)
    requires k < |found| && ReadTrees(found[..k]).Ok?
    ensures AllEncodable(Kids(found[k])) && !Orderly(Kids(found[k])) ==>
              Answer(path, Trees(found)).Throw? && ReadStatus(Answer(path, Trees(found)).fault) == Escaped(Other)
    ensures found[k].List? && found[k].children == [] ==>
              Answer(path, Trees(found)).Throw? && ReadStatus(Answer(path, Trees(found)).fault) == Escaped(Undefined)
  {
    LoopSucceeds(Kids(found[k]));
    if AllEncodable(Kids(found[k])) && !Orderly(Kids(found[k])) {
      FirstUnreadTree(path, found, k, Other);
    }
    if found[k].List? && found[k].children == [] {
      FirstUnreadTree(path, found, k, Undefined);
    }
  }

  /** A notification for an unkeyed list path holds one update per instance found. */
  lemma ListNotification(answer: (nat, string) -> Subtrees, version: nat, sees: Resolver, roots: seq<Node>,
                         n: Notice, prefix: Option<Path>, path: Path)
    requires Answers(n, answer, version, prefix, path) && Serves(answer, version, sees, roots)
    requires path.elems != [] && CleanPath(path) && CleanPrefix(prefix)
    requires Found(sees, roots, prefix, path) != [] && AllReadable(Found(sees, roots, prefix, path))
    ensures n.updates == UpdatesOf(path, Found(sees, roots, prefix, path))
  {
    PathAnswerIsReply(answer, version, sees, roots, prefix, path);
    ReplyIsUpdates(sees, roots, prefix, path);
  }

  /** `path` asks for a list without a key and finds the instances `ts` of one single-keyed list;
      the key of the i-th can be printed. */
  predicate AsksForList(sees: Resolver, roots: seq<Node>, prefix: Option<Path>, path: Path, ts: seq<Node>,
                        keyName: string, i: nat) {
    && Unkeyed(path) && CleanPath(path) && CleanPrefix(prefix)
    && ts == Found(sees, roots, prefix, path)
    && AllReadable(ts) && OneList(ts, keyName)
    && i < |ts| && CleanKey(KeyOf(ts[i]))
  }

  lemma {:induction false} AskedAgain(answer: (nat, string) -> Subtrees, version: nat, sees: Resolver, roots: seq<Node>,
                                      prefix: Option<Path>, path: Path, ts: seq<Node>, keyName: string, i: nat)
    requires Serves(answer, version, sees, roots) && AsksForList(sees, roots, prefix, path, ts, keyName, i)
    ensures var u := UpdateOf(path, ts[i]);
            PathAnswer(answer, version, prefix, u.path) == Ok([u]) <==> UniqueKey(ts, i)
  {
    PathAnswerIsReply(answer, version, sees, roots, prefix, UpdateOf(path, ts[i]).path);
    SelfAddressing.SelfAddressing(sees, roots, prefix, path, ts, keyName, i);
  }

  /** Self-addressing, on the notifications that Get returns: take update i of the notification
      `n` for an unkeyed list path and ask for its path under the same prefix, when the data
      are the same.  It is answered with that update alone if and only if no other instance
      found has its key value. */
  lemma {:induction false} NoticeSelfAddresses(answer: (nat, string) -> Subtrees, version: nat, sees: Resolver,
                                               roots: seq<Node>, n: Notice, prefix: Option<Path>, path: Path,
                                               ts: seq<Node>, keyName: string, i: nat, later: nat)
    requires Answers(n, answer, version, prefix, path)
    requires Serves(answer, version, sees, roots) && Serves(answer, later, sees, roots)
    requires AsksForList(sees, roots, prefix, path, ts, keyName, i)
    ensures |n.updates| == |ts|
    ensures PathAnswer(answer, later, prefix, n.updates[i].path) == Ok([n.updates[i]]) <==> UniqueKey(ts, i)
  {
    ListNotification(answer, version, sees, roots, n, prefix, path);
    assert n.updates[i] == UpdateOf(path, ts[i]);
    AskedAgain(answer, later, sees, roots, prefix, path, ts, keyName, i);
  }

  /** A run for a single path returns what that path is answered with, and does not fail if it
      is answered. */
  lemma SinglePath(answer: (nat, string) -> Subtrees, version: nat, req: GetRequest, ns: seq<Notice>)
    requires |req.paths| == 1 && AllAnswered(ns, answer, version, req)
    ensures |ns| == 1 ==> PathAnswer(answer, version + 1, req.prefix, req.paths[0]) == Ok(ns[0].updates)
    ensures (exists status :: FailsFirstAt(answer, version, req, 0, status)) ==>
              PathAnswer(answer, version + 1, req.prefix, req.paths[0]).Throw?
  {
    if |ns| == 1 {
      assert Answers(ns[0], answer, version + 1, req.prefix, req.paths[0]);
    }
  }

  lemma AnsweredAt(ns: seq<Notice>, answer: (nat, string) -> Subtrees, version: nat, req: GetRequest, j: nat)
    requires AllAnswered(ns, answer, version, req) && j < |ns|
    ensures Answers(ns[j], answer, version + j + 1, req.prefix, req.paths[j])
  {
  }

  /** The same on runs of Get: the first run returned `ns`, the second one, for the path of
      update i of the j-th notification, returned `more`.  The second run cannot fail if the
      key value is unique, and returns the update alone if and only if it is. */
  lemma {:induction false} RunsSelfAddress(answer: (nat, string) -> Subtrees, version: nat, sees: Resolver,
                                           roots: seq<Node>, req: GetRequest, ns: seq<Notice>, j: nat, ts: seq<Node>,
                                           keyName: string, i: nat, later: nat, again: GetRequest, more: seq<Notice>)
    requires AllAnswered(ns, answer, version, req) && j < |ns| && i < |ns[j].updates|
    requires Serves(answer, version + j + 1, sees, roots) && Serves(answer, later + 1, sees, roots)
    requires AsksForList(sees, roots, req.prefix, req.paths[j], ts, keyName, i)
    requires again.paths == [ns[j].updates[i].path] && again.prefix == req.prefix
    requires AllAnswered(more, answer, later, again)
    ensures UniqueKey(ts, i) ==> !exists status :: FailsFirstAt(answer, later, again, 0, status)
    ensures |more| == 1 ==> (more[0].updates == [ns[j].updates[i]] <==> UniqueKey(ts, i))
  {
    AnsweredAt(ns, answer, version, req, j);
    NoticeSelfAddresses(answer, version + j + 1, sees, roots, ns[j], req.prefix, req.paths[j], ts, keyName, i,
                        later + 1);
    SinglePath(answer, later, again, more);
  }

  // ---------------------------------------------------------------- Subscribe

  /** Subscription `i` is read as what its own steps select, behind one update without a value;
      the prefix of the list does not enter. */
  lemma SubscriptionReads(answer: (nat, string) -> Subtrees, version: nat, sees: Resolver, roots: seq<Node>,
                          subs: seq<Subscription>, i: nat)
    requires i < |subs| && Serves(answer, version + i + 1, sees, roots) && CleanPath(subs[i].path)
    ensures Parts(answer, version, subs)[i] ==
            match Selected(sees, roots, StepsOf(subs[i].path), subs[i].path)
            case Ok(us) => Ok([Update(subs[i].path, None)] + us)
            case Throw(f) => Throw(f)
  {
    var path := subs[i].path;
    ReadPrint(StepsOf(path));
    TextSelects(answer, version + i + 1, sees, roots, XPathOf(path), StepsOf(path), path);
    assert Parts(answer, version, subs)[i] == SubUpdates(answer, version + i + 1, path);
  }

  /** Part `p` of a notification: an update of the subscription's path without a value, then
      one update for each node that its steps select. */
  predicate PartIs(p: seq<Update>, sees: Resolver, roots: seq<Node>, sub: Subscription) {
    && StepsOf(sub.path) != []
    && p != [] && p[0] == Update(sub.path, None)
    && UpdatesAre(p[1..], sub.path, Select(sees, roots, StepsOf(sub.path)))
  }

  /** What a written notification holds, for data that may change between subscriptions: the
      parts of its subscriptions, in order, each read from the data of its own turn. */
  lemma ResponseHolds(answer: (nat, string) -> Subtrees, version: nat, sees: Resolver, data: seq<seq<Node>>,
                      list: SubscriptionList, us: seq<Update>, r: Response)
    returns (parts: seq<seq<Update>>)
    requires Build(answer, version, list) == Built(us) && Carries(r, list.prefix, us)
    requires |data| == |list.subs|
    requires forall i :: 0 <= i < |data| ==> Serves(answer, version + i + 1, sees, data[i])
    requires forall i :: 0 <= i < |list.subs| ==> CleanPath(list.subs[i].path)
    ensures r.UpdateResponse? && r.notice.prefix == list.prefix && r.notice.updates == Concat(parts)
    ensures |parts| == |list.subs|
    ensures forall i :: 0 <= i < |parts| ==> PartIs(parts[i], sees, data[i], list.subs[i])
  {
    var outcomes := Parts(answer, version, list.subs);
    GatherIsConcat(outcomes);
    parts := Values(outcomes);
    forall i | 0 <= i < |parts|
      ensures PartIs(parts[i], sees, data[i], list.subs[i])
    {
      assert outcomes[i].Ok? && parts[i] == outcomes[i].value;
      PartHolds(answer, version, sees, data[i], list.subs, i, parts[i]);
    }
  }

  lemma PartHolds(answer: (nat, string) -> Subtrees, version: nat, sees: Resolver, roots: seq<Node>,
                  subs: seq<Subscription>, i: nat, p: seq<Update>)
    requires i < |subs| && Serves(answer, version + i + 1, sees, roots) && CleanPath(subs[i].path)
    requires Parts(answer, version, subs)[i] == Ok(p)
    ensures PartIs(p, sees, roots, subs[i])
  {
    var path := subs[i].path;
    SubscriptionReads(answer, version, sees, roots, subs, i);
    AnswerHolds(path, Select(sees, roots, StepsOf(path)));
    ConsDrop(Update(path, None), Selected(sees, roots, StepsOf(path), path).value);
  }

  /** A list is refused outright if and only if its encoding is not JSON or it uses aliases,
      and what its notification holds does not depend on its prefix. */
  lemma RefusedLists(answer: (nat, string) -> Subtrees, version: nat, list: SubscriptionList, prefix: Option<Path>)
    ensures Build(answer, version, list) == Failed(UNIMPLEMENTED) <==>
            (list.encoding != JSON && list.encoding != JSON_IETF) || list.useAliases
    ensures Build(answer, version, list.(prefix := prefix)) == Build(answer, version, list)
  {
  }

  /** The first subscription that selects nothing ends the call with NOT_FOUND. */
  lemma SelectsNothing(answer: (nat, string) -> Subtrees, version: nat, sees: Resolver, roots: seq<Node>,
                       list: SubscriptionList, k: nat)
    requires Supported(list) && k < |list.subs| && Serves(answer, version + k + 1, sees, roots)
    requires CleanPath(list.subs[k].path) && list.subs[k].path.elems != []
    requires forall i :: 0 <= i < k ==> Parts(answer, version, list.subs)[i].Ok?
    requires Select(sees, roots, StepsOf(list.subs[k].path)) == []
    ensures Build(answer, version, list) == Failed(NOT_FOUND)
  {
    SubscriptionReads(answer, version, sees, roots, list.subs, k);
    FirstUnreadable(answer, version, list, k);
  }
}
