/** Subscribe::run (src/gnmi/subscribe.cpp:334-370). */
module SubscribeRpc {
  import opened Seqs
  import opened Gnmi
  import opened Reader
  import opened Notify
  import opened Scheduler
  import opened Subscribe
  import opened Streaming
  import Clock

  /** What may be written in each mode: N S N* when streaming, N S once, N* when polled, or
      a prefix of that; nothing for an unknown mode. */
  predicate InLanguage(mode: ListMode, w: seq<Response>) {
    match mode
    case STREAM => StreamTrace(w)
    case ONCE => w == [] || (|w| == 2 && w[0].UpdateResponse? && w[1].SyncResponse?)
    case POLL => forall k :: 0 <= k < |w| ==> w[k].UpdateResponse?
    case OTHER_MODE => w == []
  }

  /** The first message of a call; the message stays empty if the client sent none. */
  function FirstRequest(inbox: seq<Request>): Request {
    if inbox == [] then Request(NoContent, 0) else inbox[0]
  }

  /** Subscribe::run.  In mode STREAM, `init` and `passes` are the timed run that the loop made. */
  method Run(context: ServerContext, src: DataSource, clock: Clock.Clock, stream: Stream)
    returns (status: Status, ghost init: seq<int>, ghost passes: seq<Pass>, ghost w: seq<Response>)
    modifies context, src, clock, stream
    ensures stream.written == old(stream.written) + w
    ensures var first := FirstRequest(old(stream.inbox));
            if first.extensions > 0 then status == UNIMPLEMENTED && w == []
            else if !first.content.Subscribes? then status == INVALID_ARGUMENT && w == [] && context.cancelled
            else
              var list := first.content.list;
              && InLanguage(list.mode, w)
              && (list.mode == OTHER_MODE ==> status == UNKNOWN)
              && (list.mode == POLL ==>
                    var r := PollRun(src.answer, old(src.version), list, old(stream.inbox)[1..]);
                    && status == r.status && AllCarry(w, list.prefix, r.sent)
                    && context.cancelled == (old(context.cancelled) || r.cancels))
              && (list.mode == STREAM || list.mode == ONCE ==>
                    context.cancelled == (old(context.cancelled) || (status != OK && !status.Escaped?)))
              && (list.mode == ONCE ==>
                    match Build(src.answer, old(src.version), list)
                    case Failed(s) => status == s && w == []
                    case Built(us) => status == OK && |w| == 2 && Carries(w[0], list.prefix, us))
              && (list.mode == STREAM ==>
                    && |init| == |Samples(list.subs)| && Timely(init, passes, old(clock.now), clock.now)
                    && if TooLong(list.subs) then status == INVALID_ARGUMENT && w == []
                       else Streamed(src.answer, old(src.version), list, old(context.patience), status, init, passes,
                                     w))
  {
    init, passes, w := [], [], [];
    EmptyRight(stream.written);
    var read := stream.Read();
    var request := if read.Some? then read.value else Request(NoContent, 0);
    if request.extensions > 0 {
      return UNIMPLEMENTED, init, passes, w;
    }
    if !request.content.Subscribes? {
      context.TryCancel();
      return INVALID_ARGUMENT, init, passes, w;
    }
    var list := request.content.list;
    match list.mode {
      case STREAM =>
        status, init, passes, w := HandleStream(context, src, clock, stream, list);
        StreamWrites(src.answer, old(src.version), list, old(context.patience), status, init, passes, w);
      case ONCE =>
        status, w := HandleOnce(context, src, clock, stream, list);
      case POLL =>
        status, w := HandlePoll(context, src, clock, stream, list);
      case OTHER_MODE =>
        status := UNKNOWN;
    }
  }

  function Syncs(w: seq<Response>): nat {
    if w == [] then 0 else Syncs(w[..|w| - 1]) + if w[|w| - 1].SyncResponse? then 1 else 0
  }

  /** At most one sync message is ever written, and only behind a notification. */
  lemma {:induction false} AtMostOneSync(mode: ListMode, w: seq<Response>)
    requires InLanguage(mode, w)
    ensures Syncs(w) <= 1
    ensures forall k :: 0 <= k < |w| && w[k].SyncResponse? ==> k == 1 && w[0].UpdateResponse?
  {
    OneSync(w);
  }

  lemma {:induction false} OneSync(w: seq<Response>)
    requires forall k :: 0 <= k < |w| && w[k].SyncResponse? ==> k == 1
    ensures Syncs(w) <= if |w| >= 2 then 1 else 0
  {
    if w != [] {
      OneSync(w[..|w| - 1]);
      if |w| >= 3 {
        assert !w[|w| - 1].SyncResponse?;
      }
    }
  }
}
