/**
 What src/utils/requestLimiter.ts promises over whole runs: every interleaving of additions, timer
 callbacks, settled promises and `finally` blocks, for any number of each.
 */
module RequestLimiterRuns {
  import opened RequestLimiter

  predicate Legal(s: State, es: seq<Event>)
    decreases |es|
  {
    es == [] || (Enabled(s, es[0]) && Legal(Step(s, es[0]), es[1..]))
  }

  function Run(s: State, es: seq<Event>): State
    requires Legal(s, es)
    decreases |es|
  {
    if es == [] then s else Run(Step(s, es[0]), es[1..])
  }

  lemma {:induction false} RunKeepsInv(s: State, es: seq<Event>)
    requires Inv(s) && Legal(s, es)
    ensures Inv(Run(s, es))
    decreases |es|
  {
    if es == [] {
    } else {
      StepKeepsInv(s, es[0]);
      RunKeepsInv(Step(s, es[0]), es[1..]);
    }
  }

  lemma InitIsInv(start: Time)
    requires start >= 0
    ensures Inv(Init(start))
  {
  }

  /** The invariant holds in every reachable state. */
  lemma {:induction false} ReachableIsInv(start: Time, es: seq<Event>)
    requires start >= 0 && Legal(Init(start), es)
    ensures Inv(Run(Init(start), es))
  {
    InitIsInv(start);
    RunKeepsInv(Init(start), es);
  }

  // ---------------------------------------------------------------- safety

  /** The queue that a step looks at. */
  function Offered(s: State, e: Event): seq<Ticket> {
    if e.Add? then s.queue + [e.ticket] else s.queue
  }

  /** A scheduling pass that finds a free slot and a request, and that the last start is 200 ms ago. */
  predicate StartsOne(s: State, e: Event) {
    && (e.Add? || e.Fire?) && s.activeRequests < 3 && Offered(s, e) != []
    && e.now - s.lastRequestTime >= 200
  }

  /** The same, only that the last start is too recent. */
  predicate StartsLater(s: State, e: Event) {
    && (e.Add? || e.Fire?) && s.activeRequests < 3 && Offered(s, e) != []
    && e.now - s.lastRequestTime < 200
  }

  /** Exactly which steps start a request, which one and when, and what happens to the slots. */
  lemma StartsExactly(s: State, e: Event)
    requires Enabled(s, e)
    ensures var r := Step(s, e);
            if StartsOne(s, e) then
              && r.started == s.started + [Start(Offered(s, e)[0], e.later)] && r.queue == Offered(s, e)[1..]
              && r.activeRequests == s.activeRequests + 1 && r.lastRequestTime == e.later
            else
              && r.started == s.started && r.queue == Offered(s, e) && r.lastRequestTime == s.lastRequestTime
              && r.activeRequests == s.activeRequests - if e.Release? then 1 else 0
  {
  }

  /** Exactly which timers a step arms and uses up: 200 ms after a release, or after the last start. */
  lemma TimersExactly(s: State, e: Event)
    requires Enabled(s, e)
    ensures Step(s, e).timers
         == (if e.Fire? then Without(s.timers, e.timer) else s.timers)
            + (if StartsLater(s, e) then [s.lastRequestTime + 200]
               else if e.Release? then [e.now + 200]
               else [])
  {
    assert s.timers + [] == s.timers;
    if e.Fire? {
      assert Without(s.timers, e.timer) + [] == Without(s.timers, e.timer);
    }
  }

  lemma InvCoversFreeSlots(s: State)
    requires Inv(s)
    ensures |s.timers| >= Min(3 - s.activeRequests, |s.queue|)
  {
  }

  /**
   No lost wake-up: in every reachable state there are at least as many pending timers as free
   slots that waiting requests could fill. A request that hangs forever does not change this.
   */
  lemma {:induction false} NoLostWakeUp(start: Time, es: seq<Event>)
    requires start >= 0 && Legal(Init(start), es)
    ensures var s := Run(Init(start), es);
            |s.timers| >= Min(3 - s.activeRequests, |s.queue|)
  {
    ReachableIsInv(start, es);
    InvCoversFreeSlots(Run(Init(start), es));
  }

  /**
   First in, first out, nothing lost and nothing run twice: the started requests followed by the
   queued ones are the submitted ones in order, and every submitted request is queued, active or
   settled, with `activeRequests` counting the slots in use and never exceeding the limit.
   */
  lemma {:induction false} FifoAndConserved(start: Time, es: seq<Event>)
    requires start >= 0 && Legal(Init(start), es)
    ensures var s := Run(Init(start), es);
            && Tickets(s.started) + s.queue == s.submitted
            && Distinct(s.submitted)
            && |s.submitted| == |s.queue| + |s.running| + |s.settled|
            && 0 <= s.activeRequests == |s.running| + |s.releasing| <= 3
  {
    ReachableIsInv(start, es);
    var s := Run(Init(start), es);
    assert |Tickets(s.started)| == |s.started|;
    assert |s.submitted| == |Tickets(s.started)| + |s.queue|;
  }

  /** The tickets passed to `addRequest`, in order. */
  function Additions(es: seq<Event>): seq<Ticket> {
    if es == [] then [] else (if es[0].Add? then [es[0].ticket] else []) + Additions(es[1..])
  }

  /** The outcomes with which the promise of request `t` was settled. */
  function Settlements(es: seq<Event>, t: Ticket): seq<Outcome> {
    if es == [] then []
    else (if es[0].Settle? && es[0].ticket == t then [es[0].outcome] else []) + Settlements(es[1..], t)
  }

  lemma StepSubmits(s: State, e: Event)
    requires Enabled(s, e)
    ensures Step(s, e).submitted == s.submitted + (if e.Add? then [e.ticket] else [])
  {
  }

  lemma {:induction false} SubmittedIsAdditions(s: State, es: seq<Event>)
    requires Legal(s, es)
    ensures Run(s, es).submitted == s.submitted + Additions(es)
    decreases |es|
  {
    if es == [] {
    } else {
      var first: seq<Ticket> := if es[0].Add? then [es[0].ticket] else [];
      var rest := Additions(es[1..]);
      StepSubmits(s, es[0]);
      SubmittedIsAdditions(Step(s, es[0]), es[1..]);
      assert s.submitted + first + rest == s.submitted + (first + rest);
    }
  }

  lemma SettlesFresh(s: State, e: Event)
    requires Inv(s) && Enabled(s, e) && e.Settle?
    ensures e.ticket !in s.settled
  {
    assert e.ticket !in s.settled.Keys;
  }

  lemma StepSettles(s: State, e: Event, t: Ticket)
    requires Enabled(s, e)
    ensures var r := Step(s, e);
            if e.Settle? && e.ticket == t then t in r.settled && r.settled[t] == e.outcome
            else (t in r.settled <==> t in s.settled) && (t in s.settled ==> r.settled[t] == s.settled[t])
  {
  }

  lemma {:induction false} SettlementsFrom(s: State, es: seq<Event>, t: Ticket)
    requires Inv(s) && Legal(s, es)
    ensures var r := Run(s, es);
            && (t in s.settled ==> Settlements(es, t) == [] && t in r.settled && r.settled[t] == s.settled[t])
            && (t !in s.settled ==> Settlements(es, t) == if t in r.settled then [r.settled[t]] else [])
    decreases |es|
  {
    if es == [] {
    } else {
      var e := es[0];
      var rest := Settlements(es[1..], t);
      StepKeepsInv(s, e);
      StepSettles(s, e, t);
      SettlementsFrom(Step(s, e), es[1..], t);
      if e.Settle? {
        SettlesFresh(s, e);
      }
      assert Settlements(es, t) == (if e.Settle? && e.ticket == t then [e.outcome] + rest else rest);
    }
  }

  lemma {:induction false} AllSubmittedAreAdditions(start: Time, es: seq<Event>)
    requires Legal(Init(start), es)
    ensures Run(Init(start), es).submitted == Additions(es)
  {
    SubmittedIsAdditions(Init(start), es);
    assert [] + Additions(es) == Additions(es);
  }

  lemma SettledWasSubmitted(s: State, t: Ticket)
    requires Inv(s) && t in s.settled
    ensures t in s.submitted
  {
    assert t in Tickets(s.started);
    assert t in Tickets(s.started) + s.queue;
  }

  /**
   Each caller's promise settles at most once, with the outcome of its own request, and only for a
   request that some caller added.
   */
  lemma {:induction false} SettlesAtMostOnce(start: Time, es: seq<Event>, t: Ticket)
    requires start >= 0 && Legal(Init(start), es)
    ensures var s := Run(Init(start), es);
            && s.submitted == Additions(es)
            && Settlements(es, t) == (if t in s.settled then [s.settled[t]] else [])
            && (t in s.settled ==> t in Additions(es))
  {
    ReachableIsInv(start, es);
    AllSubmittedAreAdditions(start, es);
    SettlementsFrom(Init(start), es, t);
    if t in Run(Init(start), es).settled {
      SettledWasSubmitted(Run(Init(start), es), t);
    }
  }

  /** The same run with every failure turned into a success, or any other change of outcomes. */
  predicate SameButOutcomes(es: seq<Event>, fs: seq<Event>) {
    && |es| == |fs|
    && forall i :: 0 <= i < |es| ==>
         if es[i].Settle? then fs[i].Settle? && fs[i] == es[i].(outcome := fs[i].outcome)
         else fs[i] == es[i]
  }

  ghost predicate SameButSettled(s: State, r: State) {
    s == r.(settled := s.settled) && s.settled.Keys == r.settled.Keys
  }

  /**
   A failing request frees its slot exactly as a succeeding one does: changing outcomes leaves a
   legal run legal and changes nothing in the scheduler but the values the callers receive.
   */
  lemma {:induction false} OutcomesDoNotMatter(s: State, r: State, es: seq<Event>, fs: seq<Event>)
    requires SameButSettled(s, r) && SameButOutcomes(es, fs) && Legal(s, es)
    ensures Legal(r, fs) && SameButSettled(Run(s, es), Run(r, fs))
    decreases |es|
  {
    if es == [] {
    } else {
      assert Enabled(r, fs[0]);
      OutcomesDoNotMatter(Step(s, es[0]), Step(r, fs[0]), es[1..], fs[1..]);
    }
  }

  // ---------------------------------------------------------------- rate

  /** How many of the logged starts lie in the closed interval [from, until]. */
  function StartsWithin(log: seq<Start>, from: Time, until: Time): nat {
    if log == [] then 0
    else
      var last := log[|log| - 1];
      StartsWithin(log[..|log| - 1], from, until) + if from <= last.at <= until then 1 else 0
  }

  lemma {:induction false} SpacedCount(log: seq<Start>, from: Time, until: Time)
    requires Spaced(log)
    ensures var n := StartsWithin(log, from, until);
            n > 0 ==> && (n - 1) * MIN_DELAY <= until - from
                      && from + (n - 1) * MIN_DELAY <= log[|log| - 1].at
  {
    if log == [] {
    } else {
      var init := log[..|log| - 1];
      SpacedCount(init, from, until);
      if init != [] {
        assert log[|log| - 1].at - log[|log| - 2].at >= MIN_DELAY;
      }
    }
  }

  lemma {:induction false} RunIsSpaced(start: Time, es: seq<Event>)
    requires start >= 0 && Legal(Init(start), es)
    ensures Spaced(Run(Init(start), es).started)
  {
    ReachableIsInv(start, es);
  }

  /**
   The rate bound over any run: the j-th start comes at least (j - i) delays after the i-th, so an
   interval of length `length` sees at most length / MIN_DELAY + 1 starts.
   */
  lemma {:induction false} RateBound(start: Time, es: seq<Event>, from: Time, length: nat)
    requires start >= 0 && Legal(Init(start), es)
    ensures var log := Run(Init(start), es).started;
            && (forall i, j :: 0 <= i <= j < |log| ==> log[j].at - log[i].at >= (j - i) * 200)
            && StartsWithin(log, from, from + length) <= length / 200 + 1
  {
    RunIsSpaced(start, es);
    var log := Run(Init(start), es).started;
    SpacedCount(log, from, from + length);
  }

  // ---------------------------------------------------------------- drain

  /** Timers due before the minimum delay has passed: firing one of them can only re-arm it. */
  function Early(timers: seq<Time>, threshold: Time): nat {
    if timers == [] then 0
    else Early(timers[..|timers| - 1], threshold) + if timers[|timers| - 1] < threshold then 1 else 0
  }

  lemma {:induction false} EarlyAtMost(timers: seq<Time>, threshold: Time)
    ensures Early(timers, threshold) <= |timers|
  {
    if timers == [] {
    } else {
      EarlyAtMost(timers[..|timers| - 1], threshold);
    }
  }

  lemma {:induction false} EarlyAppend(timers: seq<Time>, due: Time, threshold: Time)
    ensures Early(timers + [due], threshold) == Early(timers, threshold) + if due < threshold then 1 else 0
  {
    assert (timers + [due])[..|timers|] == timers;
  }

  lemma {:induction false} EarlyWithout(timers: seq<Time>, k: nat, threshold: Time)
    requires k < |timers|
    ensures Early(timers, threshold)
         == Early(Without(timers, k), threshold) + if timers[k] < threshold then 1 else 0
  {
    var n := |timers| - 1;
    if k == n {
      assert Without(timers, k) == timers[..n];
    } else {
      EarlyWithout(timers[..n], k, threshold);
      assert Without(timers, k) == Without(timers[..n], k) + [timers[n]];
      EarlyAppend(Without(timers[..n], k), timers[n], threshold);
    }
  }

  /**
   An upper bound on the number of steps left when nothing more is added, from the numbers of
   queued, running and settled-but-unreleased requests, of timers, and of early timers. Each
   queued, running or unreleased request will still create a timer, and only a start can turn
   timers into early ones again.
   */
  function Rank(queued: int, running: int, releasing: int, timers: int, early: int): int {
    queued * (queued + running + releasing + timers) + early
    + 4 * queued + 3 * running + 2 * releasing + timers
  }

  function StepsLeft(s: State): int {
    Rank(|s.queue|, |s.running|, |s.releasing|, |s.timers|,
         Early(s.timers, s.lastRequestTime + MIN_DELAY))
  }

  lemma RankAfterStart(q: int, r: int, g: int, t: int, early: int, early': int)
    requires q > 0 && r >= 0 && g >= 0 && t > 0 && early >= 0 && early' <= t - 1
    ensures Rank(q - 1, r + 1, g, t - 1, early') < Rank(q, r, g, t, early)
  {
    var p := q + r + g + t;
    assert (q - 1) * (p - 1) == q * p - q - p + 1;
  }

  lemma RankAfterSettle(q: int, r: int, g: int, t: int, early: int)
    ensures Rank(q, r - 1, g + 1, t, early) == Rank(q, r, g, t, early) - 1
  {
    assert q + (r - 1) + (g + 1) + t == q + r + g + t;
  }

  lemma StepsLeftIsNatural(s: State)
    ensures StepsLeft(s) >= 0
  {
    var p := |s.queue| + |s.running| + |s.releasing| + |s.timers|;
    assert |s.queue| * p >= 0;
  }

  lemma RankAfterIdle(q: int, r: int, g: int, t: int, early: int, early': int)
    requires q >= 0 && r >= 0 && g >= 0 && t > 0 && early' <= early
    ensures Rank(q, r, g, t - 1, early') < Rank(q, r, g, t, early)
  {
    var p := q + r + g + t;
    assert q * (p - 1) == q * p - q;
  }

  lemma StartCounts(s: State, e: Event)
    requires Inv(s) && Enabled(s, e) && e.Fire? && Takes(s, e.now)
    ensures var r := Step(s, e);
            && |r.queue| == |s.queue| - 1 && |r.running| == |s.running| + 1
            && |r.releasing| == |s.releasing| && |r.timers| == |s.timers| - 1
  {
    HeadIsNew(s);
    assert Step(s, e).running == s.running + {s.queue[0]};
  }

  lemma SettleCounts(s: State, e: Event)
    requires Inv(s) && Enabled(s, e) && e.Settle?
    ensures var r := Step(s, e);
            && |r.queue| == |s.queue| && |r.running| == |s.running| - 1
            && |r.releasing| == |s.releasing| + 1 && |r.timers| == |s.timers|
  {
    SettlesFresh(s, e);
  }

  lemma StartLowersRank(s: State, r: State)
    requires |s.queue| > 0 && |s.timers| > 0
    requires |r.queue| == |s.queue| - 1 && |r.running| == |s.running| + 1
    requires |r.releasing| == |s.releasing| && |r.timers| == |s.timers| - 1
    ensures StepsLeft(r) < StepsLeft(s)
  {
    EarlyAtMost(r.timers, r.lastRequestTime + MIN_DELAY);
    RankAfterStart(|s.queue|, |s.running|, |s.releasing|, |s.timers|,
                   Early(s.timers, s.lastRequestTime + MIN_DELAY),
                   Early(r.timers, r.lastRequestTime + MIN_DELAY));
  }

  lemma SettleLowersRank(s: State, r: State)
    requires r.timers == s.timers && r.lastRequestTime == s.lastRequestTime
    requires |r.queue| == |s.queue| && |r.running| == |s.running| - 1
    requires |r.releasing| == |s.releasing| + 1
    ensures StepsLeft(r) < StepsLeft(s)
  {
    RankAfterSettle(|s.queue|, |s.running|, |s.releasing|, |s.timers|,
                    Early(s.timers, s.lastRequestTime + MIN_DELAY));
  }

  lemma StepsLeftAfterStart(s: State, e: Event)
    requires Inv(s) && Enabled(s, e) && e.Fire? && Takes(s, e.now)
    ensures StepsLeft(Step(s, e)) < StepsLeft(s)
  {
    StartCounts(s, e);
    StartLowersRank(s, Step(s, e));
  }

  lemma StepsLeftAfterIdle(s: State, e: Event)
    requires Enabled(s, e) && e.Fire? && !Takes(s, e.now)
    ensures StepsLeft(Step(s, e)) < StepsLeft(s)
  {
    var r := Step(s, e);
    var threshold := s.lastRequestTime + MIN_DELAY;
    var rest := Without(s.timers, e.timer);
    EarlyWithout(s.timers, e.timer, threshold);
    if r.timers == rest {
      RankAfterIdle(|s.queue|, |s.running|, |s.releasing|, |s.timers|,
                    Early(s.timers, threshold), Early(rest, threshold));
    } else {
      assert r.timers == rest + [threshold];
      EarlyAppend(rest, threshold, threshold);
    }
  }

  lemma StepsLeftAfterSettle(s: State, e: Event)
    requires Inv(s) && Enabled(s, e) && e.Settle?
    ensures StepsLeft(Step(s, e)) < StepsLeft(s)
  {
    SettleCounts(s, e);
    SettleLowersRank(s, Step(s, e));
  }

  lemma StepsLeftAfterRelease(s: State, e: Event)
    requires Enabled(s, e) && e.Release? && s.lastRequestTime <= s.clock
    ensures StepsLeft(Step(s, e)) < StepsLeft(s)
  {
    var r := Step(s, e);
    EarlyAppend(s.timers, e.now + MIN_DELAY, s.lastRequestTime + MIN_DELAY);
    assert |r.releasing| == |s.releasing| - 1;
  }

  lemma StepsLeftDecreases(s: State, e: Event)
    requires Inv(s) && Enabled(s, e) && !e.Add?
    ensures StepsLeft(Step(s, e)) < StepsLeft(s)
  {
    match e {
      case Fire(_, _, _) =>
        if Takes(s, e.now) {
          StepsLeftAfterStart(s, e);
        } else {
          StepsLeftAfterIdle(s, e);
        }
      case Settle(_, _, _) => StepsLeftAfterSettle(s, e);
      case Release(_, _) => StepsLeftAfterRelease(s, e);
    }
  }

  lemma {:induction false} StepsLeftBounds(s: State, es: seq<Event>)
    requires Inv(s) && Legal(s, es)
    requires forall i :: 0 <= i < |es| ==> !es[i].Add?
    ensures |es| + StepsLeft(Run(s, es)) <= StepsLeft(s)
    decreases |es|
  {
    if es == [] {
    } else {
      StepKeepsInv(s, es[0]);
      StepsLeftDecreases(s, es[0]);
      StepsLeftBounds(Step(s, es[0]), es[1..]);
    }
  }

  lemma StuckMeansDone(s: State)
    requires Inv(s)
    requires forall e: Event :: !e.Add? ==> !Enabled(s, e)
    ensures s.queue == [] && s.activeRequests == 0
    ensures Tickets(s.started) == s.submitted
    ensures forall t :: t in s.submitted <==> t in s.settled
  {
    if t :| t in s.running {
      assert Enabled(s, Settle(t, Resolved(""), s.clock));
    }
    if t :| t in s.releasing {
      assert Enabled(s, Release(t, s.clock));
    }
    if s.timers != [] {
      var due := if s.timers[0] < s.clock then s.clock else s.timers[0];
      assert Enabled(s, Fire(0, due, due));
    }
    assert s.running == {} && s.releasing == {} && s.timers == [];
    assert s.submitted == Tickets(s.started);
  }

  /**
   Drain, first half: once additions stop, every run is finite, with an explicit bound on how many
   more steps it can take.
   */
  lemma {:induction false} DrainsInBoundedSteps(start: Time, before: seq<Event>, after: seq<Event>)
    requires start >= 0 && Legal(Init(start), before)
    requires Legal(Run(Init(start), before), after)
    requires forall i :: 0 <= i < |after| ==> !after[i].Add?
    ensures |after| <= StepsLeft(Run(Init(start), before))
  {
    var s := Run(Init(start), before);
    ReachableIsInv(start, before);
    StepsLeftBounds(s, after);
    StepsLeftIsNatural(Run(s, after));
  }

  /**
   Drain, second half: a reachable state in which nothing but an addition can happen has an empty
   queue, no active request, and a settled promise for every request ever submitted.
   */
  lemma {:induction false} DrainsCompletely(start: Time, es: seq<Event>)
    requires start >= 0 && Legal(Init(start), es)
    requires forall e: Event :: !e.Add? ==> !Enabled(Run(Init(start), es), e)
    ensures var s := Run(Init(start), es);
            && s.queue == [] && s.activeRequests == 0
            && Tickets(s.started) == s.submitted == Additions(es)
            && forall t :: t in s.submitted <==> t in s.settled
  {
    ReachableIsInv(start, es);
    AllSubmittedAreAdditions(start, es);
    StuckMeansDone(Run(Init(start), es));
  }
}
