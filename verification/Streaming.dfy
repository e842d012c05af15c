/** The STREAM mode of Subscribe (src/gnmi/subscribe.cpp:168-262). */
module Streaming {
  import opened Seqs
  import opened Gnmi
  import opened Reader
  import opened Messages
  import opened Notify
  import opened Scheduler
  import opened Subscribe
  import Clock

  const INT64_MAX: int := 0x7fff_ffff_ffff_ffff

  // ---------------------------------------------------------------- timers

  /** An entry of `chronomap`: a SAMPLE subscription and the time of its last sample. */
  datatype Timed = Timed(sub: Subscription, since: int)

  function Subs(chronomap: seq<Timed>): (r: seq<Subscription>)
    ensures |r| == |chronomap|
  {
    seq(|chronomap|, i requires 0 <= i < |chronomap| => chronomap[i].sub)
  }

  function Times(chronomap: seq<Timed>): (r: seq<int>)
    ensures |r| == |chronomap|
  {
    seq(|chronomap|, i requires 0 <= i < |chronomap| => chronomap[i].since)
  }

  function Intervals(subs: seq<Subscription>): (r: seq<nat>)
    ensures |r| == |subs|
  {
    seq(|subs|, i requires 0 <= i < |subs| => subs[i].interval)
  }

  /** The SAMPLE subscriptions of a list, by their positions in it. */
  function SamplePositions(subs: seq<Subscription>): (sel: seq<nat>)
    ensures Selection(sel, |subs|)
    ensures forall i :: 0 <= i < |subs| ==> (i in sel <==> subs[i].mode == SAMPLE)
  {
    if subs == [] then []
    else
      var sel := SamplePositions(subs[..|subs| - 1]);
      if subs[|subs| - 1].mode == SAMPLE then sel + [|subs| - 1] else sel
  }

  function Samples(subs: seq<Subscription>): seq<Subscription> {
    Pick(subs, SamplePositions(subs))
  }

  /** The timers that fired in a pass. */
  function DuePositions(probes: seq<Probe>): (sel: seq<nat>)
    ensures Selection(sel, |probes|)
    ensures forall i :: 0 <= i < |probes| ==> (i in sel <==> probes[i].fired)
  {
    if probes == [] then []
    else
      var sel := DuePositions(probes[..|probes| - 1]);
      if probes[|probes| - 1].fired then sel + [|probes| - 1] else sel
  }

  /** The subscriptions found due in a pass, in order. */
  function Due(samples: seq<Subscription>, probes: seq<Probe>): seq<Subscription>
    requires |samples| == |probes|
  {
    Pick(samples, DuePositions(probes))
  }

  lemma DueIffFired(samples: seq<Subscription>, probes: seq<Probe>)
    requires |samples| == |probes|
    ensures Due(samples, probes) == [] <==> !AnyFired(probes)
  {
    var sel := DuePositions(probes);
    if sel != [] {
      assert sel[0] in sel && probes[sel[0]].fired;
    }
  }

  lemma PickTake<T>(s: seq<T>, n: nat, sel: seq<nat>)
    requires n <= |s| && forall j :: 0 <= j < |sel| ==> sel[j] < n
    ensures Pick(s[..n], sel) == Pick(s, sel)
  {
  }

  lemma PickSnoc<T>(s: seq<T>, sel: seq<nat>, i: nat)
    requires i < |s| && forall j :: 0 <= j < |sel| ==> sel[j] < |s|
    ensures Pick(s, sel + [i]) == Pick(s, sel) + [s[i]]
  {
  }

  lemma DueSnoc(samples: seq<Subscription>, probes: seq<Probe>, p: Probe)
    requires |probes| < |samples|
    ensures var n := |probes|;
            Due(samples[..n + 1], probes + [p]) ==
            if p.fired then Due(samples[..n], probes) + [samples[n]] else Due(samples[..n], probes)
  {
    var n, sel := |probes|, DuePositions(probes);
    assert (probes + [p])[..n] == probes;
    PickTake(samples, n, sel);
    PickTake(samples, n + 1, sel);
    if p.fired {
      PickSnoc(samples[..n + 1], sel, n);
    }
  }

  lemma SamplesSnoc(subs: seq<Subscription>, i: nat)
    requires i < |subs|
    ensures Samples(subs[..i + 1]) ==
            if subs[i].mode == SAMPLE then Samples(subs[..i]) + [subs[i]] else Samples(subs[..i])
  {
    var sel := SamplePositions(subs[..i]);
    assert subs[..i + 1][..i] == subs[..i];
    PickTake(subs[..i + 1], i, sel);
    if subs[i].mode == SAMPLE {
      PickSnoc(subs[..i + 1], sel, i);
    }
  }

  lemma SubsSnoc(chronomap: seq<Timed>, entry: Timed)
    ensures Subs(chronomap + [entry]) == Subs(chronomap) + [entry.sub]
  {
  }

  /** The timers were last set between `from` and `to`. */
  predicate StartedIn(chronomap: seq<Timed>, from: int, to: int) {
    forall i :: 0 <= i < |chronomap| ==> from <= chronomap[i].since <= to
  }

  lemma StartedSnoc(chronomap: seq<Timed>, entry: Timed, from: int, was: int, now: int)
    requires StartedIn(chronomap, from, was) && from <= was <= entry.since <= now
    ensures StartedIn(chronomap + [entry], from, now)
  {
  }

  /** Start a timer for every SAMPLE subscription; the other modes get none. */
  method InitTimers(clock: Clock.Clock, subs: seq<Subscription>) returns (chronomap: seq<Timed>)
    modifies clock
    ensures clock.now >= old(clock.now)
    ensures Subs(chronomap) == Samples(subs)
    ensures StartedIn(chronomap, old(clock.now), clock.now)
  {
    chronomap := [];
    for i := 0 to |subs|
      invariant clock.now >= old(clock.now) && StartedIn(chronomap, old(clock.now), clock.now)
      invariant Subs(chronomap) == Samples(subs[..i])
    {
      var sub := subs[i];
      SamplesSnoc(subs, i);
      match sub.mode {
        case SAMPLE =>
          ghost var was := clock.now;
          var now := clock.Now();
          StartedSnoc(chronomap, Timed(sub, now), old(clock.now), was, clock.now);
          SubsSnoc(chronomap, Timed(sub, now));
          chronomap := chronomap + [Timed(sub, now)];
        case _ =>
      }
    }
    assert subs[..|subs|] == subs;
  }

  lemma ProbeNext(intervals: seq<nat>, timers: seq<int>, start: int, probes: seq<Probe>, p: Probe)
    requires |intervals| == |timers| > |probes| && ValidProbes(intervals, timers, start, probes)
    requires start <= p.test && (p.fired <==> p.test - timers[|probes|] > intervals[|probes|])
    requires p.fired ==> p.test <= p.reset
    requires forall i :: 0 <= i < |probes| ==> Reading(probes[i]) <= p.test
    ensures ValidProbes(intervals, timers, start, probes + [p])
  {
  }

  /** The timers when only the first ones have been probed. */
  function Advance(timers: seq<int>, probes: seq<Probe>): (r: seq<int>)
    requires |probes| <= |timers|
    ensures |r| == |timers|
  {
    seq(|timers|, i requires 0 <= i < |timers| =>
      if i < |probes| && probes[i].fired then probes[i].reset else timers[i])
  }

  lemma AdvanceNext(timers: seq<int>, probes: seq<Probe>, p: Probe)
    requires |probes| < |timers|
    ensures Advance(timers, probes)[|probes|] == timers[|probes|]
    ensures Advance(timers, probes + [p]) ==
            Advance(timers, probes)[|probes| := if p.fired then p.reset else timers[|probes|]]
  {
  }

  lemma AdvanceNone(timers: seq<int>)
    ensures Advance(timers, []) == timers
  {
  }

  lemma AdvanceAll(timers: seq<int>, pass: Pass)
    requires |pass.probes| == |timers|
    ensures Advance(timers, pass.probes) == Reset(timers, pass)
  {
  }

  lemma TimedUpdate(chronomap: seq<Timed>, i: nat, t: int)
    requires i < |chronomap|
    ensures var after := chronomap[i := chronomap[i].(since := t)];
            Subs(after) == Subs(chronomap) && Times(after) == Times(chronomap)[i := t]
  {
  }

  /** The body of the loop over `chronomap`: test one timer, and reset it if it is due. */
  method ProbeTimer(clock: Clock.Clock, entry: Timed) returns (after: Timed, fired: bool, ghost p: Probe)
    modifies clock
    ensures clock.now >= Reading(p) && p.test >= old(clock.now)
    ensures fired == p.fired == (p.test - entry.since > entry.sub.interval)
    ensures p.fired ==> p.test <= p.reset
    ensures after == entry.(since := if p.fired then p.reset else entry.since)
  {
    after := entry;
    var now := clock.Now();
    p := Probe(now, false, 0);
    fired := now - entry.since > entry.sub.interval;
    if fired {
      var reset := clock.Now();
      p := Probe(now, true, reset);
      after := after.(since := reset);
    }
  }

  predicate AllRead(probes: seq<Probe>, now: int) {
    forall i :: 0 <= i < |probes| ==> Reading(probes[i]) <= now
  }

  /** The loop over `chronomap`: probe each timer, collect the due subscriptions. */
  method ProbeTimers(clock: Clock.Clock, chronomap: seq<Timed>)
    returns (after: seq<Timed>, due: seq<Subscription>, ghost probes: seq<Probe>)
    modifies clock
    ensures clock.now >= old(clock.now)
    ensures |after| == |probes| == |chronomap| && Subs(after) == Subs(chronomap)
    ensures ValidProbes(Intervals(Subs(chronomap)), Times(chronomap), old(clock.now), probes)
    ensures AllRead(probes, clock.now)
    ensures Times(after) == Advance(Times(chronomap), probes)
    ensures due == Due(Subs(chronomap), probes)
  {
    after, due, probes := chronomap, [], [];
    ghost var samples, timers, start := Subs(chronomap), Times(chronomap), clock.now;
    AdvanceNone(timers);
    for i := 0 to |chronomap|
      invariant clock.now >= start
      invariant |probes| == i && |after| == |chronomap|
      invariant ValidProbes(Intervals(samples), timers, start, probes)
      invariant AllRead(probes, clock.now)
      invariant Subs(after) == samples
      invariant Times(after) == Advance(timers, probes)
      invariant due == Due(samples[..i], probes)
    {
      assert after[i].since == Times(after)[i] && after[i].sub == Subs(after)[i];
      var entry, fired, p := ProbeTimer(clock, after[i]);
      AdvanceNext(timers, probes, p);
      TimedUpdate(after, i, entry.since);
      ProbeNext(Intervals(samples), timers, start, probes, p);
      DueSnoc(samples, probes, p);
      after := after[i := entry];
      if fired {
        due := due + [entry.sub];
      }
      probes := probes + [p];
    }
    assert samples[..|chronomap|] == samples;
  }

  // ---------------------------------------------------------------- one pass

  /** What a pass writes: nothing if no timer fired or the build failed, and otherwise one
      notification of the due subscriptions, in order, stamped after the pass's last look at
      its timers and before it was written. */
  predicate PassWrites(answer: (nat, string) -> Subtrees, version: nat, list: SubscriptionList,
                       samples: seq<Subscription>, pass: Pass, w: seq<Response>)
    requires |samples| == |pass.probes|
  {
    var due := Due(samples, pass.probes);
    if pass.wrote.None? then w == []
    else
      match Build(answer, version, list.(subs := due))
      case Failed(_) => false
      case Built(us) =>
        && due != [] && |w| == 1 && Carries(w[0], list.prefix, us)
        && AllBefore(pass, w[0].notice.timestamp) && w[0].notice.timestamp <= pass.wrote.value
  }

  /** The pass ran to its end: a notification was written if and only if a timer fired. */
  predicate Completed(samples: seq<Subscription>, pass: Pass)
    requires |samples| == |pass.probes|
  {
    pass.wrote.Some? <==> Due(samples, pass.probes) != []
  }

  /** The pass ended the call: the notification of its due subscriptions could not be built. */
  predicate Broke(answer: (nat, string) -> Subtrees, version: nat, list: SubscriptionList,
                  samples: seq<Subscription>, pass: Pass, status: Status)
    requires |samples| == |pass.probes|
  {
    var due := Due(samples, pass.probes);
    due != [] && pass.wrote.None? && Build(answer, version, list.(subs := due)) == Failed(status)
  }

  lemma AllBeforeLater(pass: Pass, t: int, u: int)
    requires AllBefore(pass, t) && t <= u
    ensures AllBefore(pass, u)
  {
  }

  /** One pass of the loop. */
  method RunPass(src: DataSource, clock: Clock.Clock, stream: Stream, response: SubscribeResponse,
                 list: SubscriptionList,
                 chronomap: seq<Timed>)
    returns (status: Status, after: seq<Timed>, ghost pass: Pass, ghost w: seq<Response>)
    requires response.IsClear()
    modifies src, clock, stream`written, response, response.update
    ensures |after| == |chronomap| == |pass.probes| && Subs(after) == Subs(chronomap)
    ensures ValidPass(Intervals(Subs(chronomap)), Times(chronomap), pass)
    ensures Times(after) == Reset(Times(chronomap), pass)
    ensures pass.start >= old(clock.now) && AllBefore(pass, clock.now)
    ensures pass.wrote.Some? ==> pass.wrote.value <= clock.now
    ensures stream.written == old(stream.written) + w
    ensures PassWrites(src.answer, old(src.version), list, Subs(chronomap), pass, w)
    ensures status == OK ==>
              && clock.now >= pass.start + 200_000_000 && response.IsClear()
              && Completed(Subs(chronomap), pass)
              && src.version == old(src.version) + |Due(Subs(chronomap), pass.probes)|
    ensures status != OK ==> Broke(src.answer, old(src.version), list, Subs(chronomap), pass, status)
  {
    var start := clock.Now();
    var due: seq<Subscription>;
    ghost var probes: seq<Probe>;
    after, due, probes := ProbeTimers(clock, chronomap);
    pass, w := Pass(start, probes, None), [];
    AdvanceAll(Times(chronomap), pass);
    EmptyRight(stream.written);
    DueIffFired(Subs(chronomap), probes);
    if |due| > 0 {
      ghost var before := stream.written;
      ghost var read := clock.now;
      status := SendUpdate(src, clock, stream, response, list.(subs := due));
      if status != OK {
        return;
      }
      pass, w := pass.(wrote := Some(clock.now)), [stream.written[|before|]];
      SplitLastOne(before, stream.written);
      AllBeforeLater(pass, read, w[0].notice.timestamp);
    }
    var end := clock.Now();
    var loopTime := end - start;
    clock.SleepFor(PACE - loopTime);
    status := OK;
  }

  // ---------------------------------------------------------------- a whole run

  /** How often the data was refreshed when some passes have been completed. */
  function VersionAt(version: nat, samples: seq<Subscription>, passes: seq<Pass>): nat
    requires Sized(|samples|, passes)
  {
    if passes == [] then version
    else VersionAt(version, samples, passes[..|passes| - 1]) + |Due(samples, passes[|passes| - 1].probes)|
  }

  /** The responses `w` are what the passes write, pass after pass. */
  predicate Emitted(answer: (nat, string) -> Subtrees, version: nat, list: SubscriptionList,
                    samples: seq<Subscription>, passes: seq<Pass>, w: seq<Response>)
    requires Sized(|samples|, passes)
    decreases |passes|
  {
    if passes == [] then w == []
    else
      var front, last := passes[..|passes| - 1], passes[|passes| - 1];
      var n := if last.wrote.Some? then 1 else 0;
      && |w| >= n
      && Emitted(answer, version, list, samples, front, w[..|w| - n])
      && PassWrites(answer, VersionAt(version, samples, front), list, samples, last, w[|w| - n..])
  }

  lemma EmittedNext(answer: (nat, string) -> Subtrees, version: nat, list: SubscriptionList, samples: seq<Subscription>,
                    passes: seq<Pass>, w: seq<Response>, pass: Pass, more: seq<Response>)
    requires Sized(|samples|, passes) && |pass.probes| == |samples|
    requires Emitted(answer, version, list, samples, passes, w)
    requires PassWrites(answer, VersionAt(version, samples, passes), list, samples, pass, more)
    ensures Sized(|samples|, passes + [pass])
    ensures Emitted(answer, version, list, samples, passes + [pass], w + more)
    ensures VersionAt(version, samples, passes + [pass]) ==
            VersionAt(version, samples, passes) + |Due(samples, pass.probes)|
  {
    assert (passes + [pass])[..|passes|] == passes;
    var n := if pass.wrote.Some? then 1 else 0;
    assert |more| == n;
    assert (w + more)[..|w + more| - n] == w && (w + more)[|w + more| - n..] == more;
  }

  lemma RunNext(intervals: seq<nat>, init: seq<int>, passes: seq<Pass>, pass: Pass)
    requires |intervals| == |init| && ValidRun(intervals, init, passes) && Sized(|init|, passes)
    requires ValidPass(intervals, TimersAfter(init, passes), pass)
    requires if passes == [] then SetBefore(init, pass.start) else Follows(passes[|passes| - 1], pass)
    ensures ValidRun(intervals, init, passes + [pass]) && Sized(|init|, passes + [pass])
    ensures TimersAfter(init, passes + [pass]) == Reset(TimersAfter(init, passes), pass)
  {
    assert (passes + [pass])[..|passes|] == passes;
  }

  predicate AllCompleted(samples: seq<Subscription>, passes: seq<Pass>)
    requires Sized(|samples|, passes)
  {
    forall k :: 0 <= k < |passes| ==> Completed(samples, passes[k])
  }

  /** The passes are a run of the loop, and `w` is what they wrote. */
  predicate Ran(answer: (nat, string) -> Subtrees, version: nat, list: SubscriptionList, samples: seq<Subscription>,
                init: seq<int>, passes: seq<Pass>, w: seq<Response>)
    requires |samples| == |init|
  {
    && Sized(|init|, passes)
    && ValidRun(Intervals(samples), init, passes)
    && Emitted(answer, version, list, samples, passes, w)
  }

  lemma RanNext(answer: (nat, string) -> Subtrees, version: nat, list: SubscriptionList, samples: seq<Subscription>,
                init: seq<int>, passes: seq<Pass>, w: seq<Response>, pass: Pass, more: seq<Response>)
    requires |samples| == |init| == |pass.probes| && Ran(answer, version, list, samples, init, passes, w)
    requires ValidPass(Intervals(samples), TimersAfter(init, passes), pass)
    requires if passes == [] then SetBefore(init, pass.start) else Follows(passes[|passes| - 1], pass)
    requires PassWrites(answer, VersionAt(version, samples, passes), list, samples, pass, more)
    ensures Ran(answer, version, list, samples, init, passes + [pass], w + more)
    ensures TimersAfter(init, passes + [pass]) == Reset(TimersAfter(init, passes), pass)
    ensures VersionAt(version, samples, passes + [pass]) ==
            VersionAt(version, samples, passes) + |Due(samples, pass.probes)|
  {
    RunNext(Intervals(samples), init, passes, pass);
    EmittedNext(answer, version, list, samples, passes, w, pass, more);
  }

  lemma CompletedNext(samples: seq<Subscription>, passes: seq<Pass>, pass: Pass)
    requires Sized(|samples|, passes) && |pass.probes| == |samples|
    ensures Sized(|samples|, passes + [pass]) && (passes + [pass])[..|passes|] == passes
    ensures AllCompleted(samples, passes) && Completed(samples, pass) ==> AllCompleted(samples, passes + [pass])
  {
    if AllCompleted(samples, passes) && Completed(samples, pass) {
      forall k | 0 <= k < |passes + [pass]|
        ensures Completed(samples, (passes + [pass])[k])
      {
        assert (passes + [pass])[k] == if k < |passes| then passes[k] else pass;
      }
    }
  }

  /** A pass that would start now follows the passes so far. */
  predicate Ready(init: seq<int>, passes: seq<Pass>, now: int) {
    Until(init, passes, now) && (passes != [] ==> now >= passes[|passes| - 1].start + 200_000_000)
  }

  predicate TooLong(subs: seq<Subscription>) {
    exists i :: 0 <= i < |subs| && subs[i].interval > 9223372036854775807
  }

  /** How a run that got past its first notification ended. */
  predicate Ended(answer: (nat, string) -> Subtrees, version: nat, list: SubscriptionList, samples: seq<Subscription>,
                  passes: seq<Pass>, patience: nat, status: Status)
    requires Sized(|samples|, passes)
  {
    if status == OK then |passes| == patience && AllCompleted(samples, passes)
    else
      && 0 < |passes| <= patience
      && AllCompleted(samples, passes[..|passes| - 1])
      && Broke(answer, VersionAt(version, samples, passes[..|passes| - 1]), list, samples, passes[|passes| - 1], status)
  }

  /** The state between passes: the passes so far are a completed run that wrote `w`, and the
      timers, the version of the data and the clock are what it left. */
  predicate Sampled(answer: (nat, string) -> Subtrees, version: nat, list: SubscriptionList, samples: seq<Subscription>,
                    init: seq<int>, passes: seq<Pass>, w: seq<Response>, times: seq<int>, version': nat, now: int)
    requires |samples| == |init|
  {
    && Ran(answer, version, list, samples, init, passes, w)
    && AllCompleted(samples, passes)
    && times == TimersAfter(init, passes)
    && version' == VersionAt(version, samples, passes)
    && Ready(init, passes, now)
  }

  lemma {:induction false} SampledStart(answer: (nat, string) -> Subtrees, version: nat, list: SubscriptionList,
                                        samples: seq<Subscription>, init: seq<int>, now: int)
    requires |samples| == |init| && SetBefore(init, now)
    ensures Sampled(answer, version, list, samples, init, [], [], init, version, now)
  {
  }

  /** One more pass: it ran to its end, or it ended the call. */
  lemma {:induction false} SampledNext(answer: (nat, string) -> Subtrees, version: nat, list: SubscriptionList,
                                       samples: seq<Subscription>, init: seq<int>, passes: seq<Pass>, w: seq<Response>,
                                       times: seq<int>, version': nat, was: int, pass: Pass, more: seq<Response>,
                                       now: int)
    requires |samples| == |init| == |pass.probes| == |times|
    requires Sampled(answer, version, list, samples, init, passes, w, times, version', was)
    requires ValidPass(Intervals(samples), times, pass) && pass.start >= was
    requires PassWrites(answer, version', list, samples, pass, more)
    ensures Ran(answer, version, list, samples, init, passes + [pass], w + more)
    ensures (passes + [pass])[|passes|] == pass
    ensures Completed(samples, pass) && Ready(init, passes + [pass], now) ==>
              Sampled(answer, version, list, samples, init, passes + [pass], w + more, Reset(times, pass),
                      version' + |Due(samples, pass.probes)|, now)
    ensures forall status, patience ::
              status != OK && |passes| < patience && Broke(answer, version', list, samples, pass, status) ==>
              Ended(answer, version, list, samples, passes + [pass], patience, status)
  {
    RanNext(answer, version, list, samples, init, passes, w, pass, more);
    CompletedNext(samples, passes, pass);
  }

  /** The body of the sampling loop, behind the passes that were made so far. */
  method NextPass(src: DataSource, clock: Clock.Clock, stream: Stream, response: SubscribeResponse,
                  list: SubscriptionList,
                  chronomap: seq<Timed>, ghost version: nat, ghost init: seq<int>, ghost passes: seq<Pass>,
                  ghost w: seq<Response>)
    returns (status: Status, after: seq<Timed>, ghost pass: Pass, ghost more: seq<Response>)
    requires response.IsClear() && |init| == |chronomap|
    requires Sampled(src.answer, version, list, Subs(chronomap), init, passes, w, Times(chronomap), src.version,
                     clock.now)
    modifies src, clock, stream`written, response, response.update
    ensures clock.now >= old(clock.now) && stream.written == old(stream.written) + more
    ensures Subs(after) == Subs(chronomap)
    ensures Ran(src.answer, version, list, Subs(chronomap), init, passes + [pass], w + more)
    ensures Until(init, passes + [pass], clock.now)
    ensures status == OK ==>
              && response.IsClear() && |after| == |init|
              && Sampled(src.answer, version, list, Subs(chronomap), init, passes + [pass], w + more, Times(after),
                         src.version, clock.now)
    ensures status != OK ==>
              forall patience :: |passes| < patience ==>
                Ended(src.answer, version, list, Subs(chronomap), passes + [pass], patience, status)
  {
    ghost var was, version', times := clock.now, src.version, Times(chronomap);
    status, after, pass, more := RunPass(src, clock, stream, response, list, chronomap);
    SampledNext(src.answer, version, list, Subs(chronomap), init, passes, w, times, version', was, pass, more,
                clock.now);
  }

  /** The sampling loop of handleStream, until the client has cancelled or a build fails. */
  method Sample(context: ServerContext, src: DataSource, clock: Clock.Clock, stream: Stream,
                response: SubscribeResponse,
                list: SubscriptionList, timers: seq<Timed>)
    returns (status: Status, ghost passes: seq<Pass>, ghost w: seq<Response>)
    requires response.IsClear() && SetBefore(Times(timers), clock.now)
    modifies context, src, clock, stream`written, response, response.update
    ensures clock.now >= old(clock.now) && Until(Times(timers), passes, clock.now)
    ensures Ran(src.answer, old(src.version), list, Subs(timers), Times(timers), passes, w)
    ensures stream.written == old(stream.written) + w
    ensures Ended(src.answer, old(src.version), list, Subs(timers), passes, old(context.patience), status)
    ensures context.cancelled == (old(context.cancelled) || (status != OK && !status.Escaped?))
  {
    ghost var samples, init, version, before := Subs(timers), Times(timers), src.version, stream.written;
    var chronomap := timers;
    passes, w := [], [];
    EmptyRight(before);
    SampledStart(src.answer, version, list, samples, init, clock.now);
    var cancelled := context.IsCancelled();
    while !cancelled
      invariant |chronomap| == |timers| && Subs(chronomap) == samples
      invariant Sampled(src.answer, version, list, samples, init, passes, w, Times(chronomap), src.version, clock.now)
      invariant stream.written == before + w
      invariant response.IsClear() && context.cancelled == old(context.cancelled) && clock.now >= old(clock.now)
      invariant if cancelled then |passes| == old(context.patience)
                else |passes| + 1 + context.patience == old(context.patience)
      decreases context.patience, !cancelled
    {
      ghost var pass: Pass, more: seq<Response>;
      status, chronomap, pass, more :=
        NextPass(src, clock, stream, response, list, chronomap, version, init, passes, w);
      Assoc(before, w, more);
      passes, w := passes + [pass], w + more;
      if status != OK {
        GiveUp(context, status);
        return;
      }
      cancelled := context.IsCancelled();
    }
    status := OK;
  }

  /** The timers were set at `from` or later, and the passes made by `now`. */
  predicate Timely(init: seq<int>, passes: seq<Pass>, from: int, now: int) {
    (forall i :: 0 <= i < |init| ==> from <= init[i]) && Until(init, passes, now)
  }

  /** Timers of a call that ends before it starts any. */
  function AllAt(n: nat, now: int): (timers: seq<int>)
    ensures |timers| == n && forall i :: 0 <= i < n ==> timers[i] == now
  {
    seq(n, _ => now)
  }

  /** What follows the sync message: start the timers, then sample. */
  method SampleList(context: ServerContext, src: DataSource, clock: Clock.Clock, stream: Stream,
                    response: SubscribeResponse,
                    list: SubscriptionList)
    returns (status: Status, ghost init: seq<int>, ghost passes: seq<Pass>, ghost w: seq<Response>)
    requires response.IsClear()
    modifies context, src, clock, stream`written, response, response.update
    ensures |init| == |Samples(list.subs)| && Timely(init, passes, old(clock.now), clock.now)
    ensures Ran(src.answer, old(src.version), list, Samples(list.subs), init, passes, w)
    ensures stream.written == old(stream.written) + w
    ensures Ended(src.answer, old(src.version), list, Samples(list.subs), passes, old(context.patience), status)
    ensures context.cancelled == (old(context.cancelled) || (status != OK && !status.Escaped?))
  {
    var chronomap := InitTimers(clock, list.subs);
    init := Times(chronomap);
    status, passes, w := Sample(context, src, clock, stream, response, list, chronomap);
  }

  /** The result of a STREAM call whose intervals fit: nothing is written if the list cannot
      be built, and otherwise its notification, a sync message, and what the passes write. */
  predicate Streamed(answer: (nat, string) -> Subtrees, version: nat, list: SubscriptionList, patience: nat,
                     status: Status, init: seq<int>, passes: seq<Pass>, w: seq<Response>)
    requires |init| == |Samples(list.subs)|
  {
    match Build(answer, version, list)
    case Failed(s) => status == s && w == [] && passes == []
    case Built(us) =>
      && |w| >= 2 && Carries(w[0], list.prefix, us) && w[1] == SyncResponse
      && Ran(answer, version + |list.subs|, list, Samples(list.subs), init, passes, w[2..])
      && Ended(answer, version + |list.subs|, list, Samples(list.subs), passes, patience, status)
  }

  method StreamCall(context: ServerContext, src: DataSource, clock: Clock.Clock, stream: Stream, list: SubscriptionList)
    returns (status: Status, ghost init: seq<int>, ghost passes: seq<Pass>, ghost w: seq<Response>)
    modifies context, src, clock, stream`written
    ensures stream.written == old(stream.written) + w
    ensures |init| == |Samples(list.subs)| && Timely(init, passes, old(clock.now), clock.now)
    ensures Streamed(src.answer, old(src.version), list, old(context.patience), status, init, passes, w)
    ensures context.cancelled == (old(context.cancelled) || (status != OK && !status.Escaped?))
  {
    init, passes, w := AllAt(|Samples(list.subs)|, clock.now), [], [];
    EmptyRight(stream.written);
    var response := new SubscribeResponse();
    ghost var before := stream.written;
    ghost var first: Response;
    status, first := SendInitial(src, clock, stream, response, list);
    if status != OK {
      GiveUp(context, status);
      return;
    }
    ghost var more: seq<Response>;
    status, init, passes, more := SampleList(context, src, clock, stream, response, list);
    w := [first, SyncResponse] + more;
    Assoc(before, [first, SyncResponse], more);
    StreamedFrom(src.answer, old(src.version), list, old(context.patience), status, init, passes, first, more);
  }

  lemma {:induction false} StreamedFrom(answer: (nat, string) -> Subtrees, version: nat, list: SubscriptionList,
                                        patience: nat,
                     status: Status, init: seq<int>, passes: seq<Pass>, first: Response, more: seq<Response>)
    requires |init| == |Samples(list.subs)|
    requires Build(answer, version, list).Built? && Carries(first, list.prefix, Build(answer, version, list).updates)
    requires Ran(answer, version + |list.subs|, list, Samples(list.subs), init, passes, more)
    requires Ended(answer, version + |list.subs|, list, Samples(list.subs), passes, patience, status)
    ensures Streamed(answer, version, list, patience, status, init, passes, [first, SyncResponse] + more)
  {
    DropTwo(first, SyncResponse, more);
  }

  /** Subscribe::handleStream. */
  method HandleStream(context: ServerContext, src: DataSource, clock: Clock.Clock, stream: Stream,
                      list: SubscriptionList)
    returns (status: Status, ghost init: seq<int>, ghost passes: seq<Pass>, ghost w: seq<Response>)
    modifies context, src, clock, stream`written
    ensures stream.written == old(stream.written) + w
    ensures |init| == |Samples(list.subs)| && Timely(init, passes, old(clock.now), clock.now)
    ensures TooLong(list.subs) ==> status == INVALID_ARGUMENT && w == [] && passes == []
    ensures !TooLong(list.subs) ==>
              Streamed(src.answer, old(src.version), list, old(context.patience), status, init, passes, w)
    ensures context.cancelled == (old(context.cancelled) || (status != OK && !status.Escaped?))
  {
    var bad := CheckIntervals(list.subs);
    if bad {
      init, passes, w := AllAt(|Samples(list.subs)|, clock.now), [], [];
      EmptyRight(stream.written);
      context.TryCancel();
      return INVALID_ARGUMENT, init, passes, w;
    }
    status, init, passes, w := StreamCall(context, src, clock, stream, list);
  }

  /** The check that every interval fits the clock's duration type. */
  method CheckIntervals(subs: seq<Subscription>) returns (bad: bool)
    ensures bad <==> TooLong(subs)
  {
    for i := 0 to |subs|
      invariant forall j :: 0 <= j < i ==> subs[j].interval <= 9223372036854775807
    {
      if subs[i].interval > INT64_MAX {
        return true;
      }
    }
    return false;
  }

  // ---------------------------------------------------------------- the language of traces

  /** N S N*, or nothing: notifications around a single sync message. */
  predicate StreamTrace(w: seq<Response>) {
    w == [] ||
    (|w| >= 2 && w[0].UpdateResponse? && w[1].SyncResponse? && forall k :: 2 <= k < |w| ==> w[k].UpdateResponse?)
  }

  /** The passes that wrote a response, in order. */
  function Writers(passes: seq<Pass>): (sel: seq<nat>)
    ensures Selection(sel, |passes|)
    ensures forall j :: 0 <= j < |passes| ==> (j in sel <==> passes[j].wrote.Some?)
  {
    if passes == [] then []
    else
      var sel := Writers(passes[..|passes| - 1]);
      if passes[|passes| - 1].wrote.Some? then sel + [|passes| - 1] else sel
  }

  /** Response `r` is what pass `j` wrote. */
  predicate WrittenAt(answer: (nat, string) -> Subtrees, version: nat, list: SubscriptionList,
                      samples: seq<Subscription>,
                      passes: seq<Pass>, j: nat, r: Response)
    requires Sized(|samples|, passes)
  {
    && j < |passes| && passes[j].wrote.Some?
    && PassWrites(answer, VersionAt(version, samples, passes[..j]), list, samples, passes[j], [r])
  }

  lemma {:induction false} OnePerWriter(answer: (nat, string) -> Subtrees, version: nat, list: SubscriptionList,
                                        samples: seq<Subscription>, passes: seq<Pass>, w: seq<Response>)
    requires Sized(|samples|, passes) && Emitted(answer, version, list, samples, passes, w)
    ensures |w| == |Writers(passes)|
    decreases |passes|
  {
    if passes != [] {
      var n := if passes[|passes| - 1].wrote.Some? then 1 else 0;
      OnePerWriter(answer, version, list, samples, passes[..|passes| - 1], w[..|w| - n]);
    }
  }

  lemma WrittenInFront(answer: (nat, string) -> Subtrees, version: nat, list: SubscriptionList,
                       samples: seq<Subscription>, passes: seq<Pass>, j: nat, r: Response)
    requires Sized(|samples|, passes) && passes != []
    requires WrittenAt(answer, version, list, samples, passes[..|passes| - 1], j, r)
    ensures WrittenAt(answer, version, list, samples, passes, j, r)
  {
    TakeTake(passes, j);
  }

  lemma LastWritten(answer: (nat, string) -> Subtrees, version: nat, list: SubscriptionList,
                    samples: seq<Subscription>, passes: seq<Pass>, w: seq<Response>)
    requires Sized(|samples|, passes) && Emitted(answer, version, list, samples, passes, w)
    requires passes != [] && passes[|passes| - 1].wrote.Some?
    ensures w != [] && WrittenAt(answer, version, list, samples, passes, |passes| - 1, w[|w| - 1])
  {
    assert w[|w| - 1..] == [w[|w| - 1]];
  }

  /** The responses and the passes that wrote one correspond, one to one and in order. */
  lemma {:induction false} WrittenBy(answer: (nat, string) -> Subtrees, version: nat, list: SubscriptionList,
                                     samples: seq<Subscription>, passes: seq<Pass>, w: seq<Response>, k: nat)
    requires Sized(|samples|, passes) && Emitted(answer, version, list, samples, passes, w) && k < |w|
    ensures |w| == |Writers(passes)| && WrittenAt(answer, version, list, samples, passes, Writers(passes)[k], w[k])
    decreases |passes|
  {
    var front := passes[..|passes| - 1];
    var n := if passes[|passes| - 1].wrote.Some? then 1 else 0;
    var v := w[..|w| - n];
    OnePerWriter(answer, version, list, samples, passes, w);
    OnePerWriter(answer, version, list, samples, front, v);
    if k < |v| {
      WrittenBy(answer, version, list, samples, front, v, k);
      WrittenInFront(answer, version, list, samples, passes, Writers(front)[k], w[k]);
    } else {
      LastWritten(answer, version, list, samples, passes, w);
    }
  }

  /** Positions of a pass's due subscriptions in the whole list. */
  function DueInList(subs: seq<Subscription>, probes: seq<Probe>): (sel: seq<nat>)
    requires |probes| == |Samples(subs)|
  {
    Pick(SamplePositions(subs), DuePositions(probes))
  }

  lemma DueIsSubsequence(subs: seq<Subscription>, probes: seq<Probe>)
    requires |probes| == |Samples(subs)|
    ensures Selection(DueInList(subs, probes), |subs|)
    ensures Due(Samples(subs), probes) == Pick(subs, DueInList(subs, probes))
    ensures forall j :: 0 <= j < |DueInList(subs, probes)| ==> subs[DueInList(subs, probes)[j]].mode == SAMPLE
  {
    var positions, due := SamplePositions(subs), DuePositions(probes);
    forall j | 0 <= j < |due|
      ensures subs[positions[due[j]]].mode == SAMPLE
    {
      assert positions[due[j]] in positions;
    }
  }

  /** Response `r` is a notification of the subscriptions that `sel` picks from the list,
      as the data was after some number of refreshes. */
  predicate NotifiesAt(answer: (nat, string) -> Subtrees, version: nat, list: SubscriptionList, sel: seq<nat>,
                       r: Response)
    requires Selection(sel, |list.subs|)
  {
    match Build(answer, version, list.(subs := Pick(list.subs, sel)))
    case Failed(_) => false
    case Built(us) => Carries(r, list.prefix, us)
  }

  predicate OnlySamples(subs: seq<Subscription>, sel: seq<nat>) {
    forall j :: 0 <= j < |sel| ==> sel[j] < |subs| && subs[sel[j]].mode == SAMPLE
  }

  /** What follows the sync message of a STREAM call: response `k` notifies a non-empty,
      order-preserving choice of the list's SAMPLE subscriptions, exactly those found due in
      one pass. */
  lemma LaterNotifications(answer: (nat, string) -> Subtrees, version: nat, list: SubscriptionList, init: seq<int>,
                           passes: seq<Pass>, w: seq<Response>, k: nat)
    returns (j: nat, sel: seq<nat>)
    requires |init| == |Samples(list.subs)|
    requires Ran(answer, version, list, Samples(list.subs), init, passes, w) && k < |w|
    ensures j < |passes| && Selection(sel, |list.subs|) && sel != [] && OnlySamples(list.subs, sel)
    ensures Pick(list.subs, sel) == Due(Samples(list.subs), passes[j].probes)
    ensures NotifiesAt(answer, VersionAt(version, Samples(list.subs), passes[..j]), list, sel, w[k])
  {
    WrittenBy(answer, version, list, Samples(list.subs), passes, w, k);
    j := Writers(passes)[k];
    sel := DueInList(list.subs, passes[j].probes);
    DueIsSubsequence(list.subs, passes[j].probes);
  }

  /** Position `i` of the SAMPLE subscriptions is due if and only if its timer fired. */
  lemma DueInListIffFired(subs: seq<Subscription>, probes: seq<Probe>, i: nat)
    requires |probes| == |Samples(subs)| && i < |probes|
    ensures probes[i].fired <==> SamplePositions(subs)[i] in DueInList(subs, probes)
  {
    var positions, due := SamplePositions(subs), DuePositions(probes);
    if probes[i].fired {
      var j :| 0 <= j < |due| && due[j] == i;
      assert DueInList(subs, probes)[j] == positions[i];
    }
    if positions[i] in DueInList(subs, probes) {
      var j :| 0 <= j < |due| && positions[due[j]] == positions[i];
      assert due[j] in due;
      SelectionIsInjective(positions, |subs|, due[j], i);
    }
  }

  /** No subscription found due is missing.  If pass `j` of a run was completed and found
      some subscription due, then one response notifies, as the data was at that pass, exactly
      the subscriptions that it found due. */
  lemma DueAreNotified(answer: (nat, string) -> Subtrees, version: nat, list: SubscriptionList, init: seq<int>,
                       passes: seq<Pass>, w: seq<Response>, j: nat)
    returns (k: nat, sel: seq<nat>)
    requires |init| == |Samples(list.subs)| && Ran(answer, version, list, Samples(list.subs), init, passes, w)
    requires j < |passes| && Completed(Samples(list.subs), passes[j]) && AnyFired(passes[j].probes)
    ensures k < |w| && Selection(sel, |list.subs|)
    ensures NotifiesAt(answer, VersionAt(version, Samples(list.subs), passes[..j]), list, sel, w[k])
    ensures forall i :: 0 <= i < |passes[j].probes| ==>
              (passes[j].probes[i].fired <==> SamplePositions(list.subs)[i] in sel)
  {
    DueIffFired(Samples(list.subs), passes[j].probes);
    OnePerWriter(answer, version, list, Samples(list.subs), passes, w);
    assert j in Writers(passes);
    k :| 0 <= k < |w| && Writers(passes)[k] == j;
    WrittenBy(answer, version, list, Samples(list.subs), passes, w, k);
    sel := DueInList(list.subs, passes[j].probes);
    DueIsSubsequence(list.subs, passes[j].probes);
    forall i | 0 <= i < |passes[j].probes|
      ensures passes[j].probes[i].fired <==> SamplePositions(list.subs)[i] in sel
    {
      DueInListIffFired(list.subs, passes[j].probes, i);
    }
  }

  lemma SelectionIsInjective(sel: seq<nat>, n: nat, a: nat, b: nat)
    requires Selection(sel, n) && a < |sel| && b < |sel| && sel[a] == sel[b]
    ensures a == b
  {
  }

  // ---------------------------------------------------------------- the timing of what is written

  /** Responses `h < k` that both notify SAMPLE subscription `i` hold samples of it that are
      more than its interval apart, each taken before its response was stamped. */
  lemma ResponsesAreSpaced(answer: (nat, string) -> Subtrees, version: nat, list: SubscriptionList,
                           samples: seq<Subscription>, init: seq<int>, passes: seq<Pass>, w: seq<Response>,
                           i: nat, h: nat, k: nat)
    returns (first: int, second: int)
    requires |samples| == |init| && Ran(answer, version, list, samples, init, passes, w) && i < |samples|
    requires h < k < |w| == |Writers(passes)|
    requires passes[Writers(passes)[h]].probes[i].fired && passes[Writers(passes)[k]].probes[i].fired
    ensures w[h].UpdateResponse? && w[k].UpdateResponse?
    ensures init[i] < first <= w[h].notice.timestamp && second <= w[k].notice.timestamp
    ensures second - first > samples[i].interval
  {
    var a, b := Writers(passes)[h], Writers(passes)[k];
    first, second := passes[a].probes[i].reset, passes[b].probes[i].reset;
    WrittenBy(answer, version, list, samples, passes, w, h);
    WrittenBy(answer, version, list, samples, passes, w, k);
    FiredAreSpaced(Intervals(samples), init, passes, i, a, b);
  }

  /** How many responses notify SAMPLE subscription `i`. */
  function ResponsesFor(passes: seq<Pass>, i: nat): nat
    requires forall k :: 0 <= k < |passes| ==> i < |passes[k].probes|
  {
    if passes == [] then 0
    else
      var last := passes[|passes| - 1];
      ResponsesFor(passes[..|passes| - 1], i) + if last.wrote.Some? && last.probes[i].fired then 1 else 0
  }

  lemma {:induction false} ResponsesAreSamples(passes: seq<Pass>, i: nat)
    requires forall k :: 0 <= k < |passes| ==> i < |passes[k].probes|
    ensures ResponsesFor(passes, i) <= |SampleTimes(passes, i)|
  {
    if passes != [] {
      ResponsesAreSamples(passes[..|passes| - 1], i);
    }
  }

  /** The rate of responses: k responses that notify a subscription take at least
      k * (interval + 1) nanoseconds from its timer's start. */
  lemma {:induction false} ResponseRate(answer: (nat, string) -> Subtrees, version: nat, list: SubscriptionList,
                                        samples: seq<Subscription>, init: seq<int>, passes: seq<Pass>, w: seq<Response>,
                                        i: nat, now: int)
    requires |samples| == |init| && Ran(answer, version, list, samples, init, passes, w) && i < |samples|
    requires Until(init, passes, now)
    ensures ResponsesFor(passes, i) * (samples[i].interval + 1) <= now - init[i]
  {
    SampleRate(Intervals(samples), init, passes, i, now);
    ResponsesAreSamples(passes, i);
    MoreTimes(ResponsesFor(passes, i), |SampleTimes(passes, i)|, samples[i].interval + 1);
  }

  lemma MoreTimes(a: nat, b: nat, x: nat)
    requires a <= b
    ensures a * x <= b * x
  {
  }

  /** How many responses are stamped in a window. */
  function StampsIn(w: seq<Response>, from: int, width: int): nat {
    if w == [] then 0
    else
      var last := w[|w| - 1];
      StampsIn(w[..|w| - 1], from, width)
      + if last.UpdateResponse? && InWindow(last.notice.timestamp, from, width) then 1 else 0
  }

  /** Pass `p` wrote a response stamped after its last reading and before it was written. */
  predicate StampsOf(p: Pass, r: Response) {
    && p.wrote.Some? && r.UpdateResponse?
    && AllBefore(p, r.notice.timestamp) && r.notice.timestamp <= p.wrote.value
  }

  /** The responses `w` are those of the passes that wrote one, in order, each stamped in time. */
  predicate AllStamped(passes: seq<Pass>, w: seq<Response>)
    decreases |passes|
  {
    if passes == [] then w == []
    else
      var front, last := passes[..|passes| - 1], passes[|passes| - 1];
      if last.wrote.None? then AllStamped(front, w)
      else w != [] && AllStamped(front, w[..|w| - 1]) && StampsOf(last, w[|w| - 1])
  }

  lemma {:induction false} EmittedIsStamped(answer: (nat, string) -> Subtrees, version: nat, list: SubscriptionList,
                                            samples: seq<Subscription>, passes: seq<Pass>, w: seq<Response>)
    requires Sized(|samples|, passes) && Emitted(answer, version, list, samples, passes, w)
    ensures AllStamped(passes, w)
    decreases |passes|
  {
    if passes != [] {
      var front, last := passes[..|passes| - 1], passes[|passes| - 1];
      var n := if last.wrote.Some? then 1 else 0;
      EmittedIsStamped(answer, version, list, samples, front, w[..|w| - n]);
      if n == 0 {
        TakeAll(w);
      } else {
        assert w[|w| - n..] == [w[|w| - 1]];
      }
    }
  }

  lemma {:induction false} StampedAreUpdates(passes: seq<Pass>, w: seq<Response>)
    requires AllStamped(passes, w)
    ensures forall k :: 0 <= k < |w| ==> w[k].UpdateResponse?
    decreases |passes|
  {
    if passes != [] {
      StampedAreUpdates(passes[..|passes| - 1], if passes[|passes| - 1].wrote.None? then w else w[..|w| - 1]);
    }
  }

  lemma TraceFrom(w: seq<Response>, v: seq<Response>)
    requires |w| >= 2 && v == w[2..] && w[0].UpdateResponse? && w[1].SyncResponse?
    requires forall k :: 0 <= k < |v| ==> v[k].UpdateResponse?
    ensures StreamTrace(w)
  {
    forall k | 2 <= k < |w|
      ensures w[k].UpdateResponse?
    {
      assert w[k] == v[k - 2];
    }
  }

  /** What a STREAM call writes is N S N*, or nothing. */
  lemma StreamWrites(answer: (nat, string) -> Subtrees, version: nat, list: SubscriptionList, patience: nat,
                     status: Status, init: seq<int>, passes: seq<Pass>, w: seq<Response>)
    requires |init| == |Samples(list.subs)|
    requires w == [] || Streamed(answer, version, list, patience, status, init, passes, w)
    ensures StreamTrace(w)
  {
    if w != [] {
      EmittedIsStamped(answer, version + |list.subs|, list, Samples(list.subs), passes, w[2..]);
      StampedAreUpdates(passes, w[2..]);
      TraceFrom(w, w[2..]);
    }
  }

  /** The run with each write moved to the time its response was stamped. */
  function Restamped(passes: seq<Pass>, w: seq<Response>): (r: seq<Pass>)
    requires AllStamped(passes, w)
    ensures |r| == |passes|
    decreases |passes|
  {
    if passes == [] then []
    else
      var front, last := passes[..|passes| - 1], passes[|passes| - 1];
      if last.wrote.None? then Restamped(front, w) + [last]
      else Restamped(front, w[..|w| - 1]) + [last.(wrote := Some(w[|w| - 1].notice.timestamp))]
  }

  lemma {:induction false} RestampedTimers(init: seq<int>, passes: seq<Pass>, w: seq<Response>)
    requires Sized(|init|, passes) && AllStamped(passes, w)
    ensures Sized(|init|, Restamped(passes, w))
    ensures TimersAfter(init, Restamped(passes, w)) == TimersAfter(init, passes)
    decreases |passes|
  {
    if passes != [] {
      var front, last := passes[..|passes| - 1], passes[|passes| - 1];
      var v := if last.wrote.Some? then w[..|w| - 1] else w;
      RestampedTimers(init, front, v);
      Unsnoc(Restamped(front, v), Restamped(passes, w)[|front|]);
    }
  }

  lemma {:induction false} RestampedWrites(passes: seq<Pass>, w: seq<Response>, from: int, width: int)
    requires AllStamped(passes, w)
    ensures WritesIn(Restamped(passes, w), from, width) == StampsIn(w, from, width)
    decreases |passes|
  {
    if passes != [] {
      var front, last := passes[..|passes| - 1], passes[|passes| - 1];
      var v := if last.wrote.Some? then w[..|w| - 1] else w;
      RestampedWrites(front, v, from, width);
      Unsnoc(Restamped(front, v), Restamped(passes, w)[|front|]);
    }
  }

  /** Pass `r` is `p`, except that it may have written earlier, or not at all. */
  predicate WroteSooner(r: Pass, p: Pass) {
    && r.start == p.start && r.probes == p.probes
    && (r.wrote.Some? ==> p.wrote.Some? && AllBefore(r, r.wrote.value) && r.wrote.value <= p.wrote.value)
  }

  lemma RestampedLast(passes: seq<Pass>, w: seq<Response>)
    requires AllStamped(passes, w) && passes != []
    requires passes[|passes| - 1].wrote.Some? ==> AllBefore(passes[|passes| - 1], passes[|passes| - 1].wrote.value)
    ensures WroteSooner(Restamped(passes, w)[|passes| - 1], passes[|passes| - 1])
  {
  }

  lemma SoonerIsValid(intervals: seq<nat>, timers: seq<int>, r: Pass, p: Pass)
    requires |intervals| == |timers| && ValidPass(intervals, timers, p) && WroteSooner(r, p)
    ensures ValidPass(intervals, timers, r)
  {
  }

  lemma SoonerFollows(r: Pass, p: Pass, s: Pass, q: Pass)
    requires Follows(p, q) && WroteSooner(r, p) && s.start == q.start
    ensures Follows(r, s)
  {
  }

  /** Stamps come before writes, so the restamped run is still a run of the loop. */
  lemma {:induction false} RestampedIsValid(intervals: seq<nat>, init: seq<int>, passes: seq<Pass>, w: seq<Response>)
    requires |intervals| == |init| && ValidRun(intervals, init, passes) && AllStamped(passes, w)
    ensures ValidRun(intervals, init, Restamped(passes, w))
    decreases |passes|
  {
    if passes != [] {
      var front, last := passes[..|passes| - 1], passes[|passes| - 1];
      var v := if last.wrote.Some? then w[..|w| - 1] else w;
      RestampedIsValid(intervals, init, front, v);
      RestampedTimers(init, front, v);
      RestampedLast(passes, w);
      var r := Restamped(passes, w)[|front|];
      Unsnoc(Restamped(front, v), r);
      SoonerIsValid(intervals, TimersAfter(init, front), r, last);
      if front != [] {
        RestampedLast(front, v);
        SoonerFollows(Restamped(front, v)[|front| - 1], front[|front| - 1], r, last);
      }
    }
  }

  /** The loop cap for responses: in any window of `width` nanoseconds, at most
      width / 200 ms + 2 periodic responses are stamped. */
  lemma ResponseCap(answer: (nat, string) -> Subtrees, version: nat, list: SubscriptionList, samples: seq<Subscription>,
                    init: seq<int>, passes: seq<Pass>, w: seq<Response>, from: int, width: nat)
    requires |samples| == |init| && Ran(answer, version, list, samples, init, passes, w)
    ensures StampsIn(w, from, width) <= width / 200_000_000 + 2
  {
    EmittedIsStamped(answer, version, list, samples, passes, w);
    RestampedIsValid(Intervals(samples), init, passes, w);
    RestampedWrites(passes, w, from, width);
    NotificationCap(Intervals(samples), init, Restamped(passes, w), from, width);
  }
}
