/** The Get RPC (src/gnmi/get.cpp). */
module Get {
  import opened Seqs
  import opened Gnmi
  import opened XPath
  import opened Json
  import opened Reader
  import opened Messages
  import Clock

  datatype GetRequest = GetRequest(
    prefix: Option<Path>,
    paths: seq<Path>,
    encoding: Encoding,
    typeIsValid: bool,
    useModels: nat,
    extensions: nat)

  class GetResponse {
    var notification: seq<Notice>

    constructor ()
      ensures notification == []
    {
      notification := [];
    }
  }

  /** The xpath a path is read from: prefix text and path text, one after the other. */
  function FullPath(prefix: Option<Path>, path: Path): string {
    PrefixText(prefix) + XPathOf(path)
  }

  /** What one path of a request is answered with, when the session has been refreshed
      `version` times. */
  function PathAnswer(answer: (nat, string) -> Subtrees, version: nat, prefix: Option<Path>, path: Path):
    Outcome<seq<Update>>
  {
    Answer(path, answer(version, FullPath(prefix, path)))
  }

  /** Notification `n` holds exactly what `path` is answered with, under the request's prefix. */
  predicate Answers(n: Notice, answer: (nat, string) -> Subtrees, version: nat, prefix: Option<Path>, path: Path)
  {
    n.prefix == prefix && PathAnswer(answer, version, prefix, path) == Ok(n.updates)
  }

  predicate FailsWith(answer: (nat, string) -> Subtrees, version: nat, prefix: Option<Path>, path: Path,
                      status: Status) {
    match PathAnswer(answer, version, prefix, path)
    case Ok(_) => false
    case Throw(f) => status == ReadStatus(f)
  }

  predicate IsJson(e: Encoding) {
    e == JSON || e == JSON_IETF
  }

  method BuildGetUpdate(src: DataSource, notification: Notification, path: Path, fullpath: string,
                        encoding: Encoding)
    returns (status: Status)
    modifies src, notification`updates
    ensures src.version == old(src.version) + 1
    ensures !IsJson(encoding) ==> status == UNIMPLEMENTED && notification.updates == old(notification.updates)
    ensures IsJson(encoding) ==>
              match Answer(path, src.answer(src.version, fullpath))
              case Ok(us) => status == OK && notification.updates == old(notification.updates) + us
              case Throw(f) => status == ReadStatus(f)
  {
    src.Refresh();
    if encoding == JSON || encoding == JSON_IETF {
      var jsonVec := JsonRead(src, fullpath);
      if jsonVec.Throw? {
        return ReadStatus(jsonVec.fault);
      }
      var thrown := AddUpdates(notification, path, jsonVec.value);
      if thrown.Some? {
        return ReadStatus(thrown.value);
      }
    } else {
      return UNIMPLEMENTED;
    }
    return OK;
  }

  method BuildGetNotification(src: DataSource, clock: Clock.Clock, notification: Notification, prefix: Option<Path>,
                              path: Path, encoding: Encoding)
    returns (status: Status)
    requires IsJson(encoding) && notification.updates == [] && notification.prefix == None
    modifies src, clock, notification
    ensures src.version == old(src.version) + 1
    ensures old(clock.now) <= notification.timestamp <= clock.now
    ensures notification.prefix == prefix
    ensures status == OK ==> Answers(notification.Contents(), src.answer, src.version, prefix, path)
    ensures status != OK ==> FailsWith(src.answer, src.version, prefix, path, status)
  {
    var fullpath := "";
    notification.timestamp := clock.Now();
    if prefix.Some? {
      var str := GnmiToXPath(prefix.value);
      notification.prefix := prefix;
      EmptyLeft(str);
      fullpath := fullpath + str;
    }
    var str := GnmiToXPath(path);
    fullpath := fullpath + str;
    assert fullpath == FullPath(prefix, path);
    status := BuildGetUpdate(src, notification, path, fullpath, encoding);
    if status == OK {
      EmptyLeft(PathAnswer(src.answer, src.version, prefix, path).value);
    }
  }

  /** The requests that are not refused outright. */
  predicate Valid(req: GetRequest) {
    IsJson(req.encoding) && req.typeIsValid && req.useModels == 0 && req.extensions == 0
  }

  method VerifyGetRequest(req: GetRequest) returns (status: Status)
    ensures status == OK <==> Valid(req)
    ensures status == OK || status == UNIMPLEMENTED
  {
    if !(req.encoding == JSON || req.encoding == JSON_IETF) {
      return UNIMPLEMENTED;
    }
    if !req.typeIsValid {
      return UNIMPLEMENTED;
    }
    if req.useModels > 0 {
      return UNIMPLEMENTED;
    }
    if req.extensions > 0 {
      return UNIMPLEMENTED;
    }
    return OK;
  }

  /** The notifications `ns` answer the first |ns| paths, in order; the i-th path is read
      after i + 1 refreshes. */
  predicate AllAnswered(ns: seq<Notice>, answer: (nat, string) -> Subtrees, version: nat, req: GetRequest) {
    && |ns| <= |req.paths|
    && forall i :: 0 <= i < |ns| ==> Answers(ns[i], answer, version + i + 1, req.prefix, req.paths[i])
  }

  /** Path `k` is the first that cannot be answered, and `status` is its status. */
  predicate FailsFirstAt(answer: (nat, string) -> Subtrees, version: nat, req: GetRequest, k: int, status: Status) {
    && 0 <= k < |req.paths|
    && (forall i :: 0 <= i < k ==> PathAnswer(answer, version + i + 1, req.prefix, req.paths[i]).Ok?)
    && FailsWith(answer, version + k + 1, req.prefix, req.paths[k], status)
  }

  lemma AllAnsweredSnoc(ns: seq<Notice>, n: Notice, answer: (nat, string) -> Subtrees, version: nat, req: GetRequest)
    requires AllAnswered(ns, answer, version, req) && |ns| < |req.paths|
    requires Answers(n, answer, version + |ns| + 1, req.prefix, req.paths[|ns|])
    ensures AllAnswered(ns + [n], answer, version, req)
  {
    forall i | 0 <= i < |ns + [n]|
      ensures Answers((ns + [n])[i], answer, version + i + 1, req.prefix, req.paths[i])
    {
      assert (ns + [n])[i] == if i < |ns| then ns[i] else n;
    }
  }

  lemma FailsAfter(ns: seq<Notice>, answer: (nat, string) -> Subtrees, version: nat, req: GetRequest, status: Status)
    requires AllAnswered(ns, answer, version, req) && |ns| < |req.paths|
    requires FailsWith(answer, version + |ns| + 1, req.prefix, req.paths[|ns|], status)
    ensures FailsFirstAt(answer, version, req, |ns|, status)
  {
    forall i | 0 <= i < |ns|
      ensures PathAnswer(answer, version + i + 1, req.prefix, req.paths[i]).Ok?
    {
      assert Answers(ns[i], answer, version + i + 1, req.prefix, req.paths[i]);
    }
  }

  /** The notifications carry clock readings between `from` and `to`, in order. */
  predicate Stamped(ns: seq<Notice>, from: int, to: int) {
    && (forall i :: 0 <= i < |ns| ==> from <= ns[i].timestamp <= to)
    && (forall i, j :: 0 <= i < j < |ns| ==> ns[i].timestamp <= ns[j].timestamp)
  }

  lemma StampedSnoc(ns: seq<Notice>, n: Notice, from: int, now: int, to: int)
    requires Stamped(ns, from, now) && from <= now <= n.timestamp <= to
    ensures Stamped(ns + [n], from, to)
  {
  }

  /** One round of the loop over paths. */
  method AnswerPath(src: DataSource, clock: Clock.Clock, req: GetRequest, path: Path)
    returns (status: Status, notice: Notice)
    requires IsJson(req.encoding)
    modifies src, clock
    ensures src.version == old(src.version) + 1
    ensures old(clock.now) <= notice.timestamp <= clock.now && notice.prefix == req.prefix
    ensures status == OK ==> Answers(notice, src.answer, src.version, req.prefix, path)
    ensures status != OK ==> FailsWith(src.answer, src.version, req.prefix, path, status)
  {
    var notification := new Notification();
    status := BuildGetNotification(src, clock, notification, req.prefix, path, req.encoding);
    notice := notification.Contents();
  }

  /** The paths before the last notification were answered, and its own path was not. */
  predicate EndsUnanswered(ns: seq<Notice>, answer: (nat, string) -> Subtrees, version: nat, req: GetRequest,
                           status: Status) {
    && FailsFirstAt(answer, version, req, |ns| - 1, status)
    && AllAnswered(ns[..|ns| - 1], answer, version, req)
    && ns[|ns| - 1].prefix == req.prefix
  }

  lemma EndsHere(ns: seq<Notice>, n: Notice, answer: (nat, string) -> Subtrees, version: nat, req: GetRequest,
                 status: Status)
    requires AllAnswered(ns, answer, version, req) && |ns| < |req.paths| && n.prefix == req.prefix
    requires FailsWith(answer, version + |ns| + 1, req.prefix, req.paths[|ns|], status)
    ensures EndsUnanswered(ns + [n], answer, version, req, status)
  {
    FailsAfter(ns, answer, version, req, status);
    Unsnoc(ns, n);
  }

  /** Get::run: one notification per path, in order, each read after a refresh of its own.
      The first path that cannot be answered ends the RPC with its status; its notification
      stays in the response, behind the answers to the paths before it. */
  method Run(src: DataSource, clock: Clock.Clock, req: GetRequest, response: GetResponse) returns (status: Status)
    requires response.notification == []
    modifies src, clock, response
    ensures clock.now >= old(clock.now) && Stamped(response.notification, old(clock.now), clock.now)
    ensures !Valid(req) ==> status == UNIMPLEMENTED && response.notification == []
    ensures Valid(req) && status == OK ==>
              && |response.notification| == |req.paths|
              && AllAnswered(response.notification, src.answer, old(src.version), req)
    ensures Valid(req) && status != OK ==>
              EndsUnanswered(response.notification, src.answer, old(src.version), req, status)
  {
    status := VerifyGetRequest(req);
    if status != OK {
      return;
    }
    ghost var version, began := src.version, clock.now;
    for i := 0 to |req.paths|
      invariant src.version == version + i && |response.notification| == i
      invariant AllAnswered(response.notification, src.answer, version, req)
      invariant clock.now >= began && Stamped(response.notification, began, clock.now)
    {
      ghost var now, answered := clock.now, response.notification;
      var notice: Notice;
      status, notice := AnswerPath(src, clock, req, req.paths[i]);
      StampedSnoc(answered, notice, began, now, clock.now);
      response.notification := response.notification + [notice];
      if status != OK {
        EndsHere(answered, notice, src.answer, version, req, status);
        return;
      }
      AllAnsweredSnoc(answered, notice, src.answer, version, req);
    }
    return OK;
  }
}
