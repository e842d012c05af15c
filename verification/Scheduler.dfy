/** The sampling loop of a STREAM subscription as a timed run: src/gnmi/subscribe.cpp:207-259. */
module Scheduler {
  import opened Gnmi

  /** The loop's cap, five passes a second: 200 milliseconds, in nanoseconds. */
  const PACE: int := 200 * 1_000_000

  /** What one pass does with one timer: read the clock, and if due, read it again to reset. */
  datatype Probe = Probe(test: int, fired: bool, reset: int)

  /** One pass of the loop; `wrote` is the time its notification was written, if one was. */
  datatype Pass = Pass(start: int, probes: seq<Probe>, wrote: Option<int>)

  /** The last clock reading a probe made. */
  function Reading(p: Probe): int {
    if p.fired then p.reset else p.test
  }

  predicate Sized(n: nat, passes: seq<Pass>) {
    forall k :: 0 <= k < |passes| ==> |passes[k].probes| == n
  }

  /** The timers' values after a pass, and after a number of passes. */
  function Reset(timers: seq<int>, pass: Pass): (r: seq<int>)
    requires |pass.probes| == |timers|
    ensures |r| == |timers|
  {
    seq(|timers|, i requires 0 <= i < |timers| => if pass.probes[i].fired then pass.probes[i].reset else timers[i])
  }

  function TimersAfter(init: seq<int>, passes: seq<Pass>): (r: seq<int>)
    requires Sized(|init|, passes)
    ensures |r| == |init|
  {
    if passes == [] then init else Reset(TimersAfter(init, passes[..|passes| - 1]), passes[|passes| - 1])
  }

  /** A timer fires exactly when strictly more than its interval has gone by, and the clock is
      read in the order of the timers. */
  predicate ValidProbes(intervals: seq<nat>, timers: seq<int>, start: int, probes: seq<Probe>)
    requires |intervals| == |timers| >= |probes|
  {
    && (forall i :: 0 <= i < |probes| ==> start <= probes[i].test)
    && (forall i :: 0 <= i < |probes| ==> (probes[i].fired <==> probes[i].test - timers[i] > intervals[i]))
    && (forall i :: 0 <= i < |probes| && probes[i].fired ==> probes[i].test <= probes[i].reset)
    && (forall i, j :: 0 <= i < j < |probes| ==> Reading(probes[i]) <= probes[j].test)
  }

  /** A pass probes every timer; a notification is written after that, if any timer fired. */
  predicate ValidPass(intervals: seq<nat>, timers: seq<int>, pass: Pass)
    requires |intervals| == |timers|
  {
    && |pass.probes| == |timers|
    && ValidProbes(intervals, timers, pass.start, pass.probes)
    && (pass.wrote.Some? ==> AnyFired(pass.probes) && AllBefore(pass, pass.wrote.value))
  }

  predicate AnyFired(probes: seq<Probe>) {
    exists i :: 0 <= i < |probes| && probes[i].fired
  }

  predicate AllBefore(pass: Pass, t: int) {
    pass.start <= t && forall i :: 0 <= i < |pass.probes| ==> Reading(pass.probes[i]) <= t
  }

  /** The next pass starts after all of the last one, and at least 200 ms after its start. */
  predicate Follows(pass: Pass, next: Pass) {
    && next.start >= pass.start + 200_000_000
    && AllBefore(pass, next.start)
    && (pass.wrote.Some? ==> pass.wrote.value <= next.start)
  }

  predicate SetBefore(timers: seq<int>, now: int) {
    forall i :: 0 <= i < |timers| ==> timers[i] <= now
  }

  /** The runs of the loop: any number of passes, from timers set to `init` before the first. */
  predicate ValidRun(intervals: seq<nat>, init: seq<int>, passes: seq<Pass>): (valid: bool)
    requires |intervals| == |init|
    ensures valid ==> Sized(|init|, passes)
  {
    passes == [] ||
    (var front, last := passes[..|passes| - 1], passes[|passes| - 1];
     && ValidRun(intervals, init, front)
     && ValidPass(intervals, TimersAfter(init, front), last)
     && (if front == [] then SetBefore(init, last.start) else Follows(front[|front| - 1], last)))
  }

  /** By `now`, the timers were set and the passes were made. */
  predicate Until(init: seq<int>, passes: seq<Pass>, now: int) {
    if passes == [] then SetBefore(init, now)
    else
      var last := passes[|passes| - 1];
      AllBefore(last, now) && (last.wrote.Some? ==> last.wrote.value <= now)
  }

  // ---------------------------------------------------------------- samples of one timer

  /** The recorded sample times of timer `i`. */
  function SampleTimes(passes: seq<Pass>, i: nat): seq<int>
    requires forall k :: 0 <= k < |passes| ==> i < |passes[k].probes|
  {
    if passes == [] then []
    else
      var times, probe := SampleTimes(passes[..|passes| - 1], i), passes[|passes| - 1].probes[i];
      if probe.fired then times + [probe.reset] else times
  }

  function LastOf(init: int, times: seq<int>): int {
    if times == [] then init else times[|times| - 1]
  }

  lemma {:induction false} TimerIsLastSample(init: seq<int>, passes: seq<Pass>, i: nat)
    requires Sized(|init|, passes) && i < |init|
    ensures TimersAfter(init, passes)[i] == LastOf(init[i], SampleTimes(passes, i))
  {
    if passes != [] {
      TimerIsLastSample(init, passes[..|passes| - 1], i);
    }
  }

  /** Successive values are more than `d` apart, the first one from `init`. */
  predicate Spaced(init: int, times: seq<int>, d: int) {
    forall k :: 0 <= k < |times| ==> times[k] - LastOf(init, times[..k]) > d
  }

  lemma SpacedSnoc(init: int, times: seq<int>, d: int, t: int)
    requires Spaced(init, times, d) && t - LastOf(init, times) > d
    ensures Spaced(init, times + [t], d)
  {
    var longer := times + [t];
    forall k | 0 <= k < |longer|
      ensures longer[k] - LastOf(init, longer[..k]) > d
    {
      assert longer[..k] == times[..k];
      assert k == |times| ==> times[..k] == times;
    }
  }

  /** Sample spacing: over every run, successive samples of a subscription are strictly more
      than its interval apart, the first one counted from the timer's start. */
  lemma {:induction false} SamplesAreSpaced(intervals: seq<nat>, init: seq<int>, passes: seq<Pass>, i: nat)
    requires |intervals| == |init| && ValidRun(intervals, init, passes) && i < |init|
    ensures Spaced(init[i], SampleTimes(passes, i), intervals[i])
  {
    if passes != [] {
      var front, last := passes[..|passes| - 1], passes[|passes| - 1];
      SamplesAreSpaced(intervals, init, front, i);
      TimerIsLastSample(init, front, i);
      if last.probes[i].fired {
        SpacedSnoc(init[i], SampleTimes(front, i), intervals[i], last.probes[i].reset);
      }
    }
  }

  lemma {:induction false} TimerSince(intervals: seq<nat>, init: seq<int>, passes: seq<Pass>, i: nat, a: nat)
    requires |intervals| == |init| && ValidRun(intervals, init, passes) && i < |init|
    requires a < |passes| && passes[a].probes[i].fired
    ensures TimersAfter(init, passes)[i] >= passes[a].probes[i].reset > init[i]
  {
    var front := passes[..|passes| - 1];
    if a < |front| {
      TimerSince(intervals, init, front, i, a);
    } else {
      TimerNotBefore(intervals, init, front, i);
    }
  }

  lemma {:induction false} TimerNotBefore(intervals: seq<nat>, init: seq<int>, passes: seq<Pass>, i: nat)
    requires |intervals| == |init| && ValidRun(intervals, init, passes) && i < |init|
    ensures TimersAfter(init, passes)[i] >= init[i]
  {
    if passes != [] {
      TimerNotBefore(intervals, init, passes[..|passes| - 1], i);
    }
  }

  /** Two passes that both sample a subscription do so more than its interval apart. */
  lemma {:induction false} FiredAreSpaced(intervals: seq<nat>, init: seq<int>, passes: seq<Pass>, i: nat, a: nat,
                                          b: nat)
    requires |intervals| == |init| && ValidRun(intervals, init, passes) && i < |init|
    requires a < b < |passes| && passes[a].probes[i].fired && passes[b].probes[i].fired
    ensures init[i] < passes[a].probes[i].reset
    ensures passes[b].probes[i].reset - passes[a].probes[i].reset > intervals[i]
  {
    var front := passes[..|passes| - 1];
    if b < |front| {
      FiredAreSpaced(intervals, init, front, i, a, b);
    } else {
      TimerSince(intervals, init, front, i, a);
    }
  }

  /** Between two samples lie at least interval + 1 nanoseconds per sample taken. */
  lemma {:induction false} SpacedRate(init: int, times: seq<int>, d: nat, j: nat, k: nat)
    requires Spaced(init, times, d) && j <= k < |times|
    ensures (k - j) * (d + 1) <= times[k] - times[j]
    ensures (k + 1) * (d + 1) <= times[k] - init
    decreases k
  {
    OneMore(k - j, d + 1);
    OneMore(k + 1, d + 1);
    if k > 0 {
      SpacedRate(init, times, d, if j < k then j else k - 1, k - 1);
      assert LastOf(init, times[..k]) == times[k - 1];
      assert (k - 1 + 1) * (d + 1) == k * (d + 1);
      assert (k - 1 - j) * (d + 1) == (k - j - 1) * (d + 1);
    } else {
      assert LastOf(init, times[..k]) == init;
    }
  }

  lemma OneMore(n: int, x: int)
    ensures n * x == (n - 1) * x + x
  {
  }

  lemma {:induction false} LastSampleUntil(intervals: seq<nat>, init: seq<int>, passes: seq<Pass>, i: nat, now: int)
    requires |intervals| == |init| && ValidRun(intervals, init, passes) && i < |init|
    requires Until(init, passes, now)
    ensures LastOf(init[i], SampleTimes(passes, i)) <= now
  {
    if passes != [] {
      var front, last := passes[..|passes| - 1], passes[|passes| - 1];
      if !last.probes[i].fired {
        assert Until(init, front, last.start);
        LastSampleUntil(intervals, init, front, i, last.start);
      }
    }
  }

  /** Sample rate: k samples need at least k * (interval + 1) nanoseconds from the timer's
      start, on every run. */
  lemma {:induction false} SampleRate(intervals: seq<nat>, init: seq<int>, passes: seq<Pass>, i: nat, now: int)
    requires |intervals| == |init| && ValidRun(intervals, init, passes) && i < |init|
    requires Until(init, passes, now)
    ensures |SampleTimes(passes, i)| * (intervals[i] + 1) <= now - init[i]
  {
    var times, d, t0 := SampleTimes(passes, i), intervals[i], init[i];
    assert Spaced(t0, times, d) by {
      SamplesAreSpaced(intervals, init, passes, i);
    }
    LastSampleUntil(intervals, init, passes, i, now);
    SpacedTotal(t0, times, d, now);
  }

  lemma SpacedTotal(init: int, times: seq<int>, d: nat, now: int)
    requires Spaced(init, times, d) && LastOf(init, times) <= now
    ensures |times| * (d + 1) <= now - init
  {
    if times != [] {
      var k := |times| - 1;
      SpacedRate(init, times, d, 0, k);
      assert k + 1 == |times|;
    }
  }

  // ---------------------------------------------------------------- lateness

  /** From one due test of timer `i` to a reset in the next pass, at most `d` goes by. */
  predicate Prompt(passes: seq<Pass>, i: nat, d: int)
    requires forall k :: 0 <= k < |passes| ==> i < |passes[k].probes|
  {
    forall k :: 0 < k < |passes| && passes[k].probes[i].fired ==>
      passes[k].probes[i].reset - passes[k - 1].probes[i].test <= d
  }

  /** After a pass, its own test of a timer is at most an interval past the timer's value. */
  lemma TestedWithinInterval(intervals: seq<nat>, timers: seq<int>, pass: Pass, i: nat)
    requires |intervals| == |timers| && ValidPass(intervals, timers, pass) && i < |timers|
    ensures pass.probes[i].test - Reset(timers, pass)[i] <= intervals[i]
  {
  }

  predicate Close(times: seq<int>, d: int) {
    forall k :: 0 < k < |times| ==> times[k] - times[k - 1] <= d
  }

  lemma CloseSnoc(times: seq<int>, d: int, t: int)
    requires Close(times, d) && (times != [] ==> t - times[|times| - 1] <= d)
    ensures Close(times + [t], d)
  {
  }

  /** Bounded lateness: when every pass is prompt, successive samples of a subscription are
      at most interval + d apart. */
  lemma {:induction false} BoundedLateness(intervals: seq<nat>, init: seq<int>, passes: seq<Pass>, i: nat, d: int)
    requires |intervals| == |init| && ValidRun(intervals, init, passes) && i < |init|
    requires Prompt(passes, i, d)
    ensures Close(SampleTimes(passes, i), intervals[i] + d)
  {
    if passes != [] {
      var front, last := passes[..|passes| - 1], passes[|passes| - 1];
      assert forall k :: 0 <= k < |front| ==> front[k] == passes[k];
      BoundedLateness(intervals, init, front, i, d);
      TimerIsLastSample(init, front, i);
      if last.probes[i].fired {
        if front != [] {
          var prev := front[|front| - 1];
          TestedWithinInterval(intervals, TimersAfter(init, front[..|front| - 1]), prev, i);
          assert passes[|passes| - 2] == prev;
        }
        CloseSnoc(SampleTimes(front, i), intervals[i] + d, last.probes[i].reset);
      }
    }
  }

  /** The first pass, too, finds the timer soon after its start. */
  predicate PromptStart(init: int, passes: seq<Pass>, i: nat, d: int)
    requires forall k :: 0 <= k < |passes| ==> i < |passes[k].probes|
  {
    passes != [] && passes[0].probes[i].fired ==> passes[0].probes[i].reset - init <= d
  }

  /** A sample is taken at most interval + d after the one before it, or the timer's start. */
  lemma {:induction false} TimerAdvances(intervals: seq<nat>, init: seq<int>, passes: seq<Pass>, i: nat, d: nat)
    requires |intervals| == |init| && ValidRun(intervals, init, passes) && i < |init|
    requires Prompt(passes, i, d) && PromptStart(init[i], passes, i, d)
    ensures TimersAfter(init, passes)[i] - init[i] <= |SampleTimes(passes, i)| * (intervals[i] + d)
  {
    if passes != [] {
      var front, last := passes[..|passes| - 1], passes[|passes| - 1];
      assert forall k :: 0 <= k < |front| ==> front[k] == passes[k];
      TimerAdvances(intervals, init, front, i, d);
      if last.probes[i].fired {
        OneMore(|SampleTimes(front, i)| + 1, intervals[i] + d);
        if front != [] {
          var prev := front[|front| - 1];
          TestedWithinInterval(intervals, TimersAfter(init, front[..|front| - 1]), prev, i);
          assert passes[|passes| - 2] == prev;
        }
      }
    }
  }

  /** Enough samples: when every pass is prompt, samples are not only close but keep coming.
      A run that tests the timer `t` after its start has taken at least
      (t - interval) / (interval + d) of them. */
  lemma {:induction false} SamplesKeepComing(intervals: seq<nat>, init: seq<int>, passes: seq<Pass>, i: nat, d: nat)
    requires |intervals| == |init| && ValidRun(intervals, init, passes) && i < |init| && passes != []
    requires Prompt(passes, i, d) && PromptStart(init[i], passes, i, d)
    ensures passes[|passes| - 1].probes[i].test - init[i] - intervals[i]
         <= |SampleTimes(passes, i)| * (intervals[i] + d)
  {
    var front := passes[..|passes| - 1];
    TimerAdvances(intervals, init, passes, i, d);
    TestedWithinInterval(intervals, TimersAfter(init, front), passes[|passes| - 1], i);
  }

  /** Passes that start within `gap` of each other, with all their clock readings within
      `work` of their start, are prompt. */
  lemma {:induction false} PaceMakesPrompt(intervals: seq<nat>, init: seq<int>, passes: seq<Pass>, i: nat, gap: int,
                                           work: int)
    requires |intervals| == |init| && ValidRun(intervals, init, passes) && i < |init|
    requires forall k :: 0 < k < |passes| ==> passes[k].start - passes[k - 1].start <= gap
    requires forall k :: 0 <= k < |passes| ==> Reading(passes[k].probes[i]) <= passes[k].start + work
    ensures Prompt(passes, i, gap + work)
  {
    forall k | 0 < k < |passes| && passes[k].probes[i].fired
      ensures passes[k].probes[i].reset - passes[k - 1].probes[i].test <= gap + work
    {
      PassIsValid(intervals, init, passes, k - 1);
    }
  }

  lemma {:induction false} PassIsValid(intervals: seq<nat>, init: seq<int>, passes: seq<Pass>, k: nat)
    requires |intervals| == |init| && ValidRun(intervals, init, passes) && k < |passes|
    ensures Sized(|init|, passes[..k]) && ValidPass(intervals, TimersAfter(init, passes[..k]), passes[k])
  {
    if k < |passes| - 1 {
      PassIsValid(intervals, init, passes[..|passes| - 1], k);
      assert passes[..|passes| - 1][..k] == passes[..k];
    }
  }

  // ---------------------------------------------------------------- refinement by single timers

  /** One timer by itself, given the clock readings of its own probes. */
  function Timer(interval: nat, init: int, probes: seq<Probe>): seq<int> {
    if probes == [] then []
    else
      var times, p := Timer(interval, init, probes[..|probes| - 1]), probes[|probes| - 1];
      if p.test - LastOf(init, times) > interval then times + [p.reset] else times
  }

  function ProbesOf(passes: seq<Pass>, i: nat): (ps: seq<Probe>)
    requires forall k :: 0 <= k < |passes| ==> i < |passes[k].probes|
    ensures |ps| == |passes|
  {
    seq(|passes|, k requires 0 <= k < |passes| => passes[k].probes[i])
  }

  /** Scheduler refinement: on every run of the shared loop, the samples of a subscription
      are those of a timer of its own, fed the clock readings made for it.  The other
      subscriptions do not enter into it. */
  lemma {:induction false} RefinesSingleTimer(intervals: seq<nat>, init: seq<int>, passes: seq<Pass>, i: nat)
    requires |intervals| == |init| && ValidRun(intervals, init, passes) && i < |init|
    ensures SampleTimes(passes, i) == Timer(intervals[i], init[i], ProbesOf(passes, i))
  {
    if passes != [] {
      var front := passes[..|passes| - 1];
      RefinesSingleTimer(intervals, init, front, i);
      TimerIsLastSample(init, front, i);
      assert ProbesOf(passes, i)[..|passes| - 1] == ProbesOf(front, i);
    }
  }

  /** A choice of timers, in order. */
  predicate Selection(sel: seq<nat>, n: nat) {
    && (forall j :: 0 <= j < |sel| ==> sel[j] < n)
    && (forall j, k :: 0 <= j < k < |sel| ==> sel[j] < sel[k])
  }

  function Pick<T>(s: seq<T>, sel: seq<nat>): (r: seq<T>)
    requires forall j :: 0 <= j < |sel| ==> sel[j] < |s|
    ensures |r| == |sel| && forall j :: 0 <= j < |sel| ==> r[j] == s[sel[j]]
  {
    seq(|sel|, j requires 0 <= j < |sel| => s[sel[j]])
  }

  /** The pass as it is without the timers that were not chosen. */
  function PickPass(pass: Pass, sel: seq<nat>): Pass
    requires forall j :: 0 <= j < |sel| ==> sel[j] < |pass.probes|
  {
    var probes := Pick(pass.probes, sel);
    Pass(pass.start, probes, if AnyFired(probes) then pass.wrote else None)
  }

  function PickRun(passes: seq<Pass>, sel: seq<nat>, n: nat): (r: seq<Pass>)
    requires Sized(n, passes) && Selection(sel, n)
    ensures |r| == |passes|
  {
    seq(|passes|, k requires 0 <= k < |passes| => PickPass(passes[k], sel))
  }

  lemma PickReset(timers: seq<int>, pass: Pass, sel: seq<nat>)
    requires |pass.probes| == |timers| && Selection(sel, |timers|)
    ensures Pick(Reset(timers, pass), sel) == Reset(Pick(timers, sel), PickPass(pass, sel))
  {
  }

  lemma {:induction false} PickTimers(init: seq<int>, passes: seq<Pass>, sel: seq<nat>)
    requires Sized(|init|, passes) && Selection(sel, |init|)
    ensures Sized(|sel|, PickRun(passes, sel, |init|))
    ensures TimersAfter(Pick(init, sel), PickRun(passes, sel, |init|)) == Pick(TimersAfter(init, passes), sel)
  {
    if passes != [] {
      var front, last := passes[..|passes| - 1], passes[|passes| - 1];
      PickTimers(init, front, sel);
      PickReset(TimersAfter(init, front), last, sel);
      assert PickRun(passes, sel, |init|)[..|passes| - 1] == PickRun(front, sel, |init|);
    }
  }

  lemma PickValidPass(intervals: seq<nat>, timers: seq<int>, pass: Pass, sel: seq<nat>)
    requires |intervals| == |timers| && ValidPass(intervals, timers, pass) && Selection(sel, |timers|)
    ensures ValidPass(Pick(intervals, sel), Pick(timers, sel), PickPass(pass, sel))
  {
  }

  lemma PickFollows(pass: Pass, next: Pass, sel: seq<nat>)
    requires Selection(sel, |pass.probes|) && Selection(sel, |next.probes|) && Follows(pass, next)
    ensures Follows(PickPass(pass, sel), PickPass(next, sel))
  {
  }

  /** Non-interference: take any subscriptions away from a run, and what is left is a run of
      the loop for the others, with the same sample times. */
  lemma {:induction false} OthersDoNotMatter(intervals: seq<nat>, init: seq<int>, passes: seq<Pass>, sel: seq<nat>)
    requires |intervals| == |init| && ValidRun(intervals, init, passes)
    requires Selection(sel, |init|)
    ensures ValidRun(Pick(intervals, sel), Pick(init, sel), PickRun(passes, sel, |init|))
    ensures forall j :: 0 <= j < |sel| ==>
              SampleTimes(PickRun(passes, sel, |init|), j) == SampleTimes(passes, sel[j])
  {
    if passes != [] {
      var front, last := passes[..|passes| - 1], passes[|passes| - 1];
      OthersDoNotMatter(intervals, init, front, sel);
      assert PickRun(passes, sel, |init|)[..|passes| - 1] == PickRun(front, sel, |init|);
      PickTimers(init, front, sel);
      PickValidPass(intervals, TimersAfter(init, front), last, sel);
      if front != [] {
        PickFollows(front[|front| - 1], last, sel);
      }
    }
  }

  // ---------------------------------------------------------------- the loop cap

  predicate InWindow(t: int, from: int, width: int) {
    from <= t <= from + width
  }

  /** How many passes start in a window, and how many notifications are written in it. */
  function StartsIn(passes: seq<Pass>, from: int, width: int): nat {
    if passes == [] then 0
    else
      StartsIn(passes[..|passes| - 1], from, width)
      + if InWindow(passes[|passes| - 1].start, from, width) then 1 else 0
  }

  function WritesIn(passes: seq<Pass>, from: int, width: int): nat {
    if passes == [] then 0
    else
      var wrote := passes[|passes| - 1].wrote;
      WritesIn(passes[..|passes| - 1], from, width) + if wrote.Some? && InWindow(wrote.value, from, width) then 1 else 0
  }

  /** Loop cap: in any window of `width` nanoseconds, at most width / 200 ms + 1 passes start. */
  lemma {:induction false} LoopCap(intervals: seq<nat>, init: seq<int>, passes: seq<Pass>, from: int, width: nat)
    requires |intervals| == |init| && ValidRun(intervals, init, passes)
    ensures StartsIn(passes, from, width) <= width / 200_000_000 + 1
    ensures StartsIn(passes, from, width) > 0 ==>
              (StartsIn(passes, from, width) - 1) * 200_000_000 <= passes[|passes| - 1].start - from
  {
    if passes != [] {
      LoopCap(intervals, init, passes[..|passes| - 1], from, width);
    }
  }

  /** In any second, that is, in fewer than 1000000000 nanoseconds, at most five passes start. */
  lemma FivePerSecond(intervals: seq<nat>, init: seq<int>, passes: seq<Pass>, from: int)
    requires |intervals| == |init| && ValidRun(intervals, init, passes)
    ensures StartsIn(passes, from, 999_999_999) <= 5
    ensures StartsIn(passes, from, 1_000_000_000) <= 6
  {
    LoopCap(intervals, init, passes, from, 999_999_999);
    LoopCap(intervals, init, passes, from, 1_000_000_000);
  }

  /** No notification of a run is written later than the start of a pass that follows. */
  lemma {:induction false} WrittenBefore(intervals: seq<nat>, init: seq<int>, passes: seq<Pass>, from: int, width: nat)
    requires |intervals| == |init| && ValidRun(intervals, init, passes) && passes != []
    requires passes[|passes| - 1].start < from
    ensures WritesIn(passes[..|passes| - 1], from, width) == 0
  {
    var front := passes[..|passes| - 1];
    if front != [] {
      WrittenBefore(intervals, init, front, from, width);
    }
  }

  /** Notifications in a window: as many as passes start in it, plus at most one from a pass
      that began before it. */
  lemma {:induction false} NotificationCap(intervals: seq<nat>, init: seq<int>, passes: seq<Pass>, from: int,
                                           width: nat)
    requires |intervals| == |init| && ValidRun(intervals, init, passes)
    ensures WritesIn(passes, from, width) <= StartsIn(passes, from, width) + 1
    ensures WritesIn(passes, from, width) <= width / 200_000_000 + 2
  {
    LoopCap(intervals, init, passes, from, width);
    if passes != [] {
      var front, last := passes[..|passes| - 1], passes[|passes| - 1];
      if last.start < from {
        WrittenBefore(intervals, init, passes, from, width);
      } else {
        NotificationCap(intervals, init, front, from, width);
      }
    }
  }
}
