/** The Subscribe RPC (src/gnmi/subscribe.cpp:168-370). */
module Subscribe {
  import opened Seqs
  import opened Gnmi
  import opened Reader
  import opened Messages
  import opened Notify
  import opened Scheduler
  import Clock

  // ---------------------------------------------------------------- messages and streams

  datatype Content = NoContent | Subscribes(list: SubscriptionList) | Poll | Aliases

  datatype Request = Request(content: Content, extensions: nat)

  datatype Response = EmptyResponse | UpdateResponse(notice: Notice) | SyncResponse

  /** The bidirectional stream: what the client will send, and what was written to it. */
  class Stream {
    var inbox: seq<Request>
    var written: seq<Response>

    constructor (inbox: seq<Request>)
      ensures this.inbox == inbox && written == []
    {
      this.inbox, written := inbox, [];
    }

    method Read() returns (r: Option<Request>)
      modifies this`inbox
      ensures if old(inbox) == [] then r == None && inbox == []
              else r == Some(old(inbox)[0]) && inbox == old(inbox)[1..]
    {
      if inbox == [] {
        return None;
      }
      r := Some(inbox[0]);
      inbox := inbox[1..];
    }

    method Write(r: Response)
      modifies this`written
      ensures written == old(written) + [r]
    {
      written := written + [r];
    }
  }

  /** The call's context.  The client cancels after `patience` looks at the call; patience is
      arbitrary, so a run for every patience is a run of every length. */
  class ServerContext {
    var patience: nat
    var cancelled: bool

    constructor (patience: nat)
      ensures this.patience == patience && !cancelled
    {
      this.patience, cancelled := patience, false;
    }

    method IsCancelled() returns (c: bool)
      modifies this`patience
      ensures c <==> old(patience) == 0
      ensures patience == if old(patience) == 0 then 0 else old(patience) - 1
    {
      c := patience == 0;
      if patience > 0 {
        patience := patience - 1;
      }
    }

    method TryCancel()
      modifies this`cancelled
      ensures cancelled
    {
      cancelled := true;
    }
  }

  datatype Which = NotSet | IsUpdate | IsSync

  /** The response message, filled, written and cleared over and over. */
  class SubscribeResponse {
    const update: Notification
    var which: Which

    constructor ()
      ensures fresh(update) && IsClear()
    {
      update := new Notification();
      which := NotSet;
    }

    predicate IsClear()
      reads this, update
    {
      which == NotSet && update.Contents() == EMPTY_NOTICE
    }

    function Message(): Response
      reads this, update
    {
      match which
      case NotSet => EmptyResponse
      case IsUpdate => UpdateResponse(update.Contents())
      case IsSync => SyncResponse
    }

    method Clear()
      modifies this, update
      ensures IsClear()
    {
      update.Clear();
      which := NotSet;
    }

    method SetSyncResponse()
      modifies this, update
      ensures Message() == SyncResponse
    {
      update.Clear();
      which := IsSync;
    }

    /** mutable_update: select the notification, keeping what it holds if it was selected. */
    method MutableUpdate() returns (n: Notification)
      modifies this, update
      ensures n == update && which == IsUpdate
      ensures update.Contents() == if old(which) == IsUpdate then old(update.Contents()) else EMPTY_NOTICE
    {
      if which != IsUpdate {
        update.Clear();
        which := IsUpdate;
      }
      n := update;
    }
  }

  /** Response `r` is the notification of `us` under `prefix`. */
  predicate Carries(r: Response, prefix: Option<Path>, us: seq<Update>) {
    r.UpdateResponse? && r.notice.updates == us && r.notice.prefix == prefix && !r.notice.atomic
  }

  /** Response `r` is a notification with a timestamp between `from` and `to`. */
  predicate StampedIn(r: Response, from: int, to: int) {
    r.UpdateResponse? && from <= r.notice.timestamp <= to
  }

  /** Build a list's notification into a cleared response, write it, and clear the response;
      nothing is written unless the build succeeds. */
  method SendUpdate(src: DataSource, clock: Clock.Clock, stream: Stream, response: SubscribeResponse,
                    list: SubscriptionList)
    returns (status: Status)
    requires response.IsClear()
    modifies src, clock, stream`written, response, response.update
    ensures clock.now >= old(clock.now)
    ensures match Build(src.answer, old(src.version), list)
            case Failed(s) => status == s && stream.written == old(stream.written)
            case Built(us) =>
              && status == OK && response.IsClear()
              && src.version == old(src.version) + |list.subs|
              && |stream.written| == |old(stream.written)| + 1
              && stream.written[..|old(stream.written)|] == old(stream.written)
              && Carries(stream.written[|old(stream.written)|], list.prefix, us)
              && StampedIn(stream.written[|old(stream.written)|], old(clock.now), clock.now)
  {
    ghost var b := Build(src.answer, src.version, list);
    var update := response.MutableUpdate();
    status := BuildSubscribeNotification(src, clock, update, list);
    if status != OK {
      return;
    }
    EmptyLeft(b.updates);
    stream.Write(response.Message());
    response.Clear();
  }

  /** An error status cancels the call, unless it is an exception on its way out. */
  method GiveUp(context: ServerContext, status: Status)
    modifies context`cancelled
    ensures context.cancelled == (old(context.cancelled) || !status.Escaped?)
  {
    if !status.Escaped? {
      context.TryCancel();
    }
  }

  /** The first two messages of a STREAM or ONCE call: all subscriptions, then a sync. */
  method SendInitial(src: DataSource, clock: Clock.Clock, stream: Stream, response: SubscribeResponse,
                     list: SubscriptionList)
    returns (status: Status, ghost first: Response)
    requires response.IsClear()
    modifies src, clock, stream`written, response, response.update
    ensures clock.now >= old(clock.now)
    ensures match Build(src.answer, old(src.version), list)
            case Failed(s) => status == s && stream.written == old(stream.written)
            case Built(us) =>
              && status == OK && response.IsClear()
              && src.version == old(src.version) + |list.subs|
              && Carries(first, list.prefix, us) && StampedIn(first, old(clock.now), clock.now)
              && stream.written == old(stream.written) + [first, SyncResponse]
  {
    ghost var before := stream.written;
    first := EmptyResponse;
    status := SendUpdate(src, clock, stream, response, list);
    if status != OK {
      return;
    }
    first := stream.written[|before|];
    JoinPair(before, stream.written, SyncResponse);
    response.SetSyncResponse();
    stream.Write(response.Message());
    response.Clear();
  }

  // ---------------------------------------------------------------- ONCE

  /** Subscribe::handleOnce. */
  method HandleOnce(context: ServerContext, src: DataSource, clock: Clock.Clock, stream: Stream, list: SubscriptionList)
    returns (status: Status, ghost w: seq<Response>)
    modifies context`cancelled, src, clock, stream`written
    ensures stream.written == old(stream.written) + w
    ensures match Build(src.answer, old(src.version), list)
            case Failed(s) => status == s && w == [] && context.cancelled == (old(context.cancelled) || !s.Escaped?)
            case Built(us) =>
              && status == OK && context.cancelled == old(context.cancelled)
              && |w| == 2 && w[1] == SyncResponse
              && Carries(w[0], list.prefix, us) && StampedIn(w[0], old(clock.now), clock.now)
  {
    w := [];
    EmptyRight(stream.written);
    var response := new SubscribeResponse();
    ghost var first: Response;
    status, first := SendInitial(src, clock, stream, response, list);
    if status != OK {
      GiveUp(context, status);
      return;
    }
    w := [first, SyncResponse];
  }

  // ---------------------------------------------------------------- POLL

  /** What answering the messages of a POLL call sends, how it ends, and whether the server
      cancels it. */
  datatype PollResult = PollResult(sent: seq<seq<Update>>, status: Status, cancels: bool)

  /** The polls are answered one by one; each finds the data refreshed by those before it. */
  function PollRun(answer: (nat, string) -> Subtrees, version: nat, list: SubscriptionList,
                   inbox: seq<Request>): PollResult
    decreases |inbox|
  {
    if inbox == [] then PollResult([], OK, false)
    else
      match inbox[0].content
      case Poll =>
        (match Build(answer, version, list)
         case Failed(s) => PollResult([], s, !s.Escaped?)
         case Built(us) =>
           var r := PollRun(answer, version + |list.subs|, list, inbox[1..]);
           r.(sent := [us] + r.sent))
      case Aliases => PollResult([], UNIMPLEMENTED, false)
      case Subscribes(_) => PollResult([], INVALID_ARGUMENT, false)
      case NoContent => PollResult([], INVALID_ARGUMENT, false)
  }

  /** The responses `w` are the notifications of `sent`, one by one. */
  predicate AllCarry(w: seq<Response>, prefix: Option<Path>, sent: seq<seq<Update>>) {
    |w| == |sent| && forall i :: 0 <= i < |w| ==> Carries(w[i], prefix, sent[i])
  }

  lemma AllCarrySnoc(w: seq<Response>, prefix: Option<Path>, sent: seq<seq<Update>>, r: Response, us: seq<Update>)
    requires AllCarry(w, prefix, sent) && Carries(r, prefix, us)
    ensures AllCarry(w + [r], prefix, sent + [us])
  {
  }

  /** After answering polls with `w`, the rest of the call, from `version` on, completes `whole`. */
  predicate Polled(answer: (nat, string) -> Subtrees, version: nat, list: SubscriptionList, whole: PollResult,
                   sent: seq<seq<Update>>, w: seq<Response>, rest: seq<Request>) {
    && AllCarry(w, list.prefix, sent)
    && var r := PollRun(answer, version, list, rest); whole == r.(sent := sent + r.sent)
  }

  lemma PolledStart(answer: (nat, string) -> Subtrees, version: nat, list: SubscriptionList, inbox: seq<Request>)
    ensures Polled(answer, version, list, PollRun(answer, version, list, inbox), [], [], inbox)
  {
    EmptyLeft(PollRun(answer, version, list, inbox).sent);
  }

  /** The call ends here: the stream is over, or the message is no poll or cannot be answered. */
  lemma PolledEnds(answer: (nat, string) -> Subtrees, version: nat, list: SubscriptionList, whole: PollResult,
                   sent: seq<seq<Update>>, w: seq<Response>, rest: seq<Request>)
    requires Polled(answer, version, list, whole, sent, w, rest)
    requires rest != [] && rest[0].content.Poll? ==> Build(answer, version, list).Failed?
    ensures whole.sent == sent
    ensures whole.cancels <==> rest != [] && rest[0].content.Poll? && !Build(answer, version, list).status.Escaped?
    ensures whole.status ==
            if rest == [] then OK
            else match rest[0].content
                 case Poll => Build(answer, version, list).status
                 case Aliases => UNIMPLEMENTED
                 case _ => INVALID_ARGUMENT
  {
    EmptyRight(sent);
  }

  /** A poll was answered with `r`. */
  lemma PolledNext(answer: (nat, string) -> Subtrees, version: nat, list: SubscriptionList, whole: PollResult,
                   sent: seq<seq<Update>>, w: seq<Response>, rest: seq<Request>, us: seq<Update>, r: Response)
    requires Polled(answer, version, list, whole, sent, w, rest) && rest != [] && rest[0].content.Poll?
    requires Build(answer, version, list) == Built(us) && Carries(r, list.prefix, us)
    ensures Polled(answer, version + |list.subs|, list, whole, sent + [us], w + [r], rest[1..])
  {
    AllCarrySnoc(w, list.prefix, sent, r, us);
    Assoc(sent, [us], PollRun(answer, version + |list.subs|, list, rest[1..]).sent);
  }

  /** The poll case of handlePoll, with a response of its own. */
  method AnswerPoll(context: ServerContext, src: DataSource, clock: Clock.Clock, stream: Stream, list: SubscriptionList)
    returns (status: Status)
    modifies context`cancelled, src, clock, stream`written
    ensures context.cancelled == (old(context.cancelled) || (status != OK && !status.Escaped?))
    ensures match Build(src.answer, old(src.version), list)
            case Failed(s) => status == s && stream.written == old(stream.written)
            case Built(us) =>
              && status == OK
              && src.version == old(src.version) + |list.subs|
              && |stream.written| == |old(stream.written)| + 1
              && stream.written == old(stream.written) + [stream.written[|old(stream.written)|]]
              && Carries(stream.written[|old(stream.written)|], list.prefix, us)
  {
    var response := new SubscribeResponse();
    status := SendUpdate(src, clock, stream, response, list);
    if status != OK {
      GiveUp(context, status);
    }
  }

  /** A poll is answered, behind the responses `w` of the polls before it, or ends the call. */
  method PollRound(context: ServerContext, src: DataSource, clock: Clock.Clock, stream: Stream, list: SubscriptionList,
                   ghost whole: PollResult, ghost sent: seq<seq<Update>>, ghost w: seq<Response>,
                   ghost rest: seq<Request>)
    returns (status: Status, ghost us: seq<Update>, ghost last: Response)
    requires Polled(src.answer, src.version, list, whole, sent, w, rest) && rest != [] && rest[0].content.Poll?
    modifies context`cancelled, src, clock, stream`written
    ensures status == OK ==>
              && Polled(src.answer, src.version, list, whole, sent + [us], w + [last], rest[1..])
              && stream.written == old(stream.written) + [last]
              && context.cancelled == old(context.cancelled)
    ensures status != OK ==>
              && whole.sent == sent && whole.status == status
              && stream.written == old(stream.written)
              && context.cancelled == (old(context.cancelled) || whole.cancels)
  {
    ghost var before, version, built := stream.written, src.version, Build(src.answer, src.version, list);
    status := AnswerPoll(context, src, clock, stream, list);
    us, last := [], EmptyResponse;
    if status == OK {
      us, last := built.updates, stream.written[|before|];
      PolledNext(src.answer, version, list, whole, sent, w, rest, us, last);
    } else {
      PolledEnds(src.answer, version, list, whole, sent, w, rest);
    }
  }

  /** Subscribe::handlePoll.  `request` is overwritten by every message; the notifications
      are built from the list the call began with. */
  method HandlePoll(context: ServerContext, src: DataSource, clock: Clock.Clock, stream: Stream, list: SubscriptionList)
    returns (status: Status, ghost w: seq<Response>)
    modifies context`cancelled, src, clock, stream
    ensures stream.written == old(stream.written) + w
    ensures var r := PollRun(src.answer, old(src.version), list, old(stream.inbox));
            && status == r.status && AllCarry(w, list.prefix, r.sent)
            && context.cancelled == (old(context.cancelled) || r.cancels)
  {
    var subscription := list;
    ghost var rest, before := stream.inbox, stream.written;
    ghost var whole := PollRun(src.answer, src.version, list, rest);
    ghost var sent: seq<seq<Update>> := [];
    w := [];
    EmptyRight(before);
    PolledStart(src.answer, src.version, list, rest);
    var request := stream.Read();
    while request.Some?
      invariant stream.written == before + w
      invariant Polled(src.answer, src.version, list, whole, sent, w, rest)
      invariant context.cancelled == old(context.cancelled)
      invariant if request.None? then rest == stream.inbox == [] else rest == [request.value] + stream.inbox
      decreases |stream.inbox|, request.Some?
    {
      match request.value.content {
        case Poll =>
          ghost var us: seq<Update>, last: Response;
          status, us, last := PollRound(context, src, clock, stream, subscription, whole, sent, w, rest);
          if status != OK {
            return;
          }
          Assoc(before, w, [last]);
          w, sent := w + [last], sent + [us];
        case Aliases =>
          PolledEnds(src.answer, src.version, list, whole, sent, w, rest);
          return UNIMPLEMENTED, w;
        case Subscribes(_) =>
          PolledEnds(src.answer, src.version, list, whole, sent, w, rest);
          return INVALID_ARGUMENT, w;
        case NoContent =>
          PolledEnds(src.answer, src.version, list, whole, sent, w, rest);
          return INVALID_ARGUMENT, w;
      }
      rest := stream.inbox;
      request := stream.Read();
    }
    PolledEnds(src.answer, src.version, list, whole, sent, w, rest);
    status := OK;
  }

  function LeadingPolls(inbox: seq<Request>): (n: nat)
    ensures n <= |inbox|
  {
    if inbox == [] || !inbox[0].content.Poll? then 0 else 1 + LeadingPolls(inbox[1..])
  }

  /** The status that the first message which is no poll decides. */
  function EndStatus(inbox: seq<Request>): Status {
    var n := LeadingPolls(inbox);
    if n == |inbox| then OK else if inbox[n].content.Aliases? then UNIMPLEMENTED else INVALID_ARGUMENT
  }

  /** The notifications a POLL call would build, each when the ones before it were built. */
  function Builds(answer: (nat, string) -> Subtrees, version: nat, list: SubscriptionList, n: nat): (bs: seq<Built>)
    ensures |bs| == n
  {
    seq(n, k requires 0 <= k < n => Build(answer, version + k * |list.subs|, list))
  }

  lemma BuildsTail(answer: (nat, string) -> Subtrees, version: nat, list: SubscriptionList, n: nat)
    requires n > 0
    ensures Builds(answer, version, list, n)[0] == Build(answer, version, list)
    ensures Builds(answer, version, list, n)[1..] == Builds(answer, version + |list.subs|, list, n - 1)
  {
    forall k | 0 <= k < n - 1
      ensures version + (k + 1) * |list.subs| == version + |list.subs| + k * |list.subs|
    {
      OneMore(k + 1, |list.subs|);
    }
  }

  /** The same run, told by the notifications that would be built. */
  function PollOf(builds: seq<Built>, inbox: seq<Request>): PollResult
    requires |builds| == |inbox|
  {
    if inbox == [] then PollResult([], OK, false)
    else if inbox[0].content.Poll? then
      match builds[0]
      case Failed(s) => PollResult([], s, !s.Escaped?)
      case Built(us) =>
        var r := PollOf(builds[1..], inbox[1..]);
        r.(sent := [us] + r.sent)
    else PollResult([], if inbox[0].content.Aliases? then UNIMPLEMENTED else INVALID_ARGUMENT, false)
  }

  lemma {:induction false} PollRunIsPollOf(answer: (nat, string) -> Subtrees, version: nat, list: SubscriptionList,
                                           inbox: seq<Request>)
    ensures PollRun(answer, version, list, inbox) == PollOf(Builds(answer, version, list, |inbox|), inbox)
    decreases |inbox|
  {
    if inbox != [] {
      BuildsTail(answer, version, list, |inbox|);
      PollRunIsPollOf(answer, version + |list.subs|, list, inbox[1..]);
    }
  }

  lemma {:induction false} PollOfCounts(builds: seq<Built>, inbox: seq<Request>, k: nat)
    requires |builds| == |inbox| && k <= LeadingPolls(inbox)
    requires forall j :: 0 <= j < k ==> builds[j].Built?
    requires k < LeadingPolls(inbox) ==> builds[k].Failed?
    ensures var r := PollOf(builds, inbox);
            && |r.sent| == k
            && r.status == (if k == LeadingPolls(inbox) then EndStatus(inbox) else builds[k].status)
            && r.cancels == (k < LeadingPolls(inbox) && !builds[k].status.Escaped?)
            && forall j :: 0 <= j < k ==> builds[j] == Built(r.sent[j])
  {
    if inbox != [] && inbox[0].content.Poll? && k > 0 {
      PollOfCounts(builds[1..], inbox[1..], k - 1);
      var r, rest := PollOf(builds, inbox), PollOf(builds[1..], inbox[1..]);
      forall j | 0 <= j < k
        ensures builds[j] == Built(r.sent[j])
      {
        if j > 0 {
          assert r.sent[j] == rest.sent[j - 1] && builds[j] == builds[1..][j - 1];
        }
      }
    }
  }

  /** Poll accounting: if the builds succeed, there is one response per poll before the first
      other message, and the status is decided by that message, or is OK at the end of the
      stream; a build that fails ends and cancels the call there, with its status. */
  lemma {:induction false} PollAccounting(answer: (nat, string) -> Subtrees, version: nat, list: SubscriptionList,
                                          inbox: seq<Request>, builds: seq<Built>, k: nat)
    requires builds == Builds(answer, version, list, |inbox|) && k <= LeadingPolls(inbox)
    requires forall j :: 0 <= j < k ==> builds[j].Built?
    requires k < LeadingPolls(inbox) ==> builds[k].Failed?
    ensures var r := PollRun(answer, version, list, inbox);
            && |r.sent| == k
            && r.status == (if k == LeadingPolls(inbox) then EndStatus(inbox) else builds[k].status)
            && r.cancels == (k < LeadingPolls(inbox) && !builds[k].status.Escaped?)
            && forall j :: 0 <= j < k ==> builds[j] == Built(r.sent[j])
  {
    PollRunIsPollOf(answer, version, list, inbox);
    PollOfCounts(builds, inbox, k);
  }
}
