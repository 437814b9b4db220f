/**
 How long a request waits in the global request limiter of src/utils/requestLimiter.ts, on schedules whose
 timers are not arbitrarily late.
 */
module RequestLimiterWaiting {
  import opened RequestLimiter
  import opened RequestLimiterRuns

  // ---------------------------------------------------------------- bounded response

  /** The time at which a step is over. */
  function Done(e: Event): Time {
    if e.Add? || e.Fire? then e.later else e.now
  }

  /** No timer is more than `late` overdue by the end of a step, that of the timer itself included. */
  predicate OnTime(s: State, e: Event, late: nat) {
    forall k :: 0 <= k < |s.timers| ==> Done(e) <= s.timers[k] + late
  }

  predicate Timely(s: State, es: seq<Event>, late: nat)
    requires Legal(s, es)
    decreases |es|
  {
    es == [] || (OnTime(s, es[0], late) && Timely(Step(s, es[0]), es[1..], late))
  }

  lemma {:induction false} StartedOnlyGrows(s: State, es: seq<Event>)
    requires Legal(s, es)
    ensures s.started <= Run(s, es).started
    decreases |es|
  {
    if es == [] {
    } else {
      StartedOnlyGrows(Step(s, es[0]), es[1..]);
    }
  }

  ghost predicate DueBy(timers: seq<Time>, deadline: Time) {
    exists k :: 0 <= k < |timers| && timers[k] <= deadline
  }

  /** While a request waits for a free slot, some timer is due by the deadline. */
  ghost predicate Awaiting(s: State, deadline: Time, late: nat) {
    && s.activeRequests < MAX_CONCURRENT
    && s.queue != []
    && s.clock <= deadline + late
    && s.lastRequestTime + MIN_DELAY <= deadline
    && DueBy(s.timers, deadline)
  }

  /** A step that starts nothing leaves the wake-up pending, or re-arms it. */
  lemma WakeUpRemains(s: State, e: Event, deadline: Time)
    requires Enabled(s, e) && s.activeRequests < MAX_CONCURRENT && s.queue != []
    requires s.lastRequestTime + MIN_DELAY <= deadline && DueBy(s.timers, deadline)
    requires Step(s, e).started == s.started
    ensures DueBy(Step(s, e).timers, deadline)
  {
    var r := Step(s, e);
    if e.Fire? {
      assert r.timers[|s.timers| - 1] == s.lastRequestTime + MIN_DELAY;
    } else {
      var k :| 0 <= k < |s.timers| && s.timers[k] <= deadline;
      assert r.timers[k] == s.timers[k];
    }
  }

  lemma AwaitingStep(s: State, e: Event, deadline: Time, late: nat)
    requires Awaiting(s, deadline, late) && Enabled(s, e) && OnTime(s, e, late)
    ensures var r := Step(s, e);
            || (r.started == s.started && r.queue != [] && r.queue[0] == s.queue[0] && Awaiting(r, deadline, late))
            || (r.started == s.started + [Start(s.queue[0], Done(e))] && Done(e) <= deadline + late)
  {
    if Step(s, e).started == s.started {
      WakeUpRemains(s, e, deadline);
    }
  }

  lemma {:induction false} StartsByDeadline(s: State, es: seq<Event>, deadline: Time, late: nat)
    requires Awaiting(s, deadline, late) && Legal(s, es) && Timely(s, es, late)
    requires Run(s, es).clock > deadline + late
    ensures var log := Run(s, es).started;
            && |log| > |s.started| && log[|s.started|].ticket == s.queue[0]
            && log[|s.started|].at <= deadline + late
    decreases |es|
  {
    if es == [] {
      assert false;
    } else {
      var r := Step(s, es[0]);
      AwaitingStep(s, es[0], deadline, late);
      if r.started == s.started {
        StartsByDeadline(r, es[1..], deadline, late);
      } else {
        StartedOnlyGrows(r, es[1..]);
        assert Run(s, es).started[|s.started|] == r.started[|s.started|];
      }
    }
  }

  /**
   Bounded response: from any reachable state with a free slot and waiting work, whatever else is
   added, completes or hangs, the request at the head of the queue starts within MIN_DELAY and the
   lateness of the timers.
   */
  lemma {:induction false} BoundedResponse(start: Time, before: seq<Event>, after: seq<Event>, late: nat)
    requires start >= 0 && Legal(Init(start), before)
    requires var s := Run(Init(start), before);
             && s.activeRequests < 3 && s.queue != []
             && Legal(s, after) && Timely(s, after, late)
             && Run(s, after).clock > s.clock + 200 + late
    ensures var s := Run(Init(start), before);
            var log := Run(s, after).started;
            && |log| > |s.started|
            && log[|s.started|].ticket == s.queue[0]
            && log[|s.started|].at <= s.clock + 200 + late
  {
    ReachableIsInv(start, before);
    var s := Run(Init(start), before);
    assert s.timers[0] <= s.clock + MIN_DELAY;
    StartsByDeadline(s, after, s.clock + MIN_DELAY, late);
  }

  // ---------------------------------------------------------------- bounded waiting

  /** The i-th started request still holds its slot. */
  predicate Holds(s: State, i: nat) {
    i < |s.started| && (s.started[i].ticket in s.running || s.started[i].ticket in s.releasing)
  }

  /** No request holds a slot longer than `hold`, from its start to the end of its `finally` block. */
  ghost predicate Prompt(s: State, e: Event, hold: nat) {
    forall i: nat :: Holds(s, i) ==> Done(e) <= s.started[i].at + hold
  }

  /** How long the head of the queue waits at most, slots being busy. */
  function Turn(hold: nat, late: nat): nat {
    hold + MIN_DELAY + late
  }

  /** Some slot is free by the time that leaves a minimum delay and the lateness of a timer. */
  ghost predicate FreedBy(s: State, deadline: Time, hold: nat) {
    exists i: nat :: Holds(s, i) && s.started[i].at + hold + MIN_DELAY <= deadline
  }

  /** The head of the queue starts by `deadline`, give or take the lateness of a timer. */
  ghost predicate Waiting(s: State, deadline: Time, hold: nat, late: nat) {
    && s.queue != [] && s.clock <= deadline + late
    && if s.activeRequests < MAX_CONCURRENT then Awaiting(s, deadline, late) else FreedBy(s, deadline, hold)
  }

  lemma StartsAreOver(s: State, i: nat)
    requires Paced(s) && i < |s.started|
    ensures s.started[i].at <= s.clock
  {
    var last := |s.started| - 1;
    assert s.started[last].at - s.started[i].at >= (last - i) * MIN_DELAY;
  }

  lemma SomeoneHolds(s: State) returns (i: nat)
    requires Placed(s) && s.activeRequests >= MAX_CONCURRENT
    ensures Holds(s, i)
  {
    assert s.running != {} || s.releasing != {};
    var t :| t in s.running || t in s.releasing;
    assert t in Tickets(s.started);
    i :| 0 <= i < |Tickets(s.started)| && Tickets(s.started)[i] == t;
  }

  /** Waiting begins in every reachable state. */
  lemma WaitingBegins(s: State, hold: nat, late: nat)
    requires Inv(s) && s.queue != []
    ensures Waiting(s, s.clock + hold + MIN_DELAY, hold, late)
  {
    if s.activeRequests < MAX_CONCURRENT {
      assert s.timers[0] <= s.clock + MIN_DELAY;
    } else {
      var i := SomeoneHolds(s);
      StartsAreOver(s, i);
    }
  }

  /** While every slot is busy nothing starts; the release that ends this arms a timer. */
  lemma BusyStep(s: State, e: Event, deadline: Time, hold: nat, late: nat)
    requires Waiting(s, deadline, hold, late) && s.activeRequests == MAX_CONCURRENT
    requires s.lastRequestTime <= s.clock && Enabled(s, e) && Prompt(s, e, hold)
    ensures var r := Step(s, e);
            r.started == s.started && s.queue <= r.queue && Waiting(r, deadline, hold, late)
  {
    var r := Step(s, e);
    var i: nat :| Holds(s, i) && s.started[i].at + hold + MIN_DELAY <= deadline;
    assert Done(e) + MIN_DELAY <= deadline;
    if e.Release? {
      assert r.timers[|s.timers|] == e.now + MIN_DELAY;
    } else {
      assert Holds(r, i);
    }
  }

  lemma FreeStep(s: State, e: Event, deadline: Time, hold: nat, late: nat)
    requires Waiting(s, deadline, hold, late) && s.activeRequests < MAX_CONCURRENT
    requires Enabled(s, e) && OnTime(s, e, late)
    ensures var r := Step(s, e);
            || (r.started == s.started && s.queue <= r.queue && Waiting(r, deadline, hold, late))
            || (r.started == s.started + [Start(s.queue[0], Done(e))] && Done(e) <= deadline + late
                && s.queue[1..] <= r.queue && r.clock == Done(e))
  {
    AwaitingStep(s, e, deadline, late);
  }

  /** What the invariant says about waiting. */
  ghost predicate Ready(s: State, hold: nat, late: nat) {
    && s.lastRequestTime <= s.clock && s.activeRequests <= MAX_CONCURRENT
    && (s.queue != [] ==> Waiting(s, s.clock + hold + MIN_DELAY, hold, late))
  }

  /** A run on schedule: no timer fires too late, and no request holds its slot too long. */
  ghost predicate OnSchedule(s: State, es: seq<Event>, hold: nat, late: nat)
    requires Legal(s, es)
    decreases |es|
  {
    es == []
    || (OnTime(s, es[0], late) && Prompt(s, es[0], hold) && OnSchedule(Step(s, es[0]), es[1..], hold, late))
  }

  ghost predicate Scheduled(s: State, es: seq<Event>, hold: nat, late: nat)
    decreases |es|
  {
    && Ready(s, hold, late)
    && (es == []
        || (Enabled(s, es[0]) && OnTime(s, es[0], late) && Prompt(s, es[0], hold)
            && Scheduled(Step(s, es[0]), es[1..], hold, late)))
  }

  lemma {:induction false} RunIsScheduled(s: State, es: seq<Event>, hold: nat, late: nat)
    requires Inv(s) && Legal(s, es) && OnSchedule(s, es, hold, late)
    ensures Scheduled(s, es, hold, late)
    decreases |es|
  {
    if s.queue != [] {
      WaitingBegins(s, hold, late);
    }
    if es == [] {
    } else {
      StepKeepsInv(s, es[0]);
      RunIsScheduled(Step(s, es[0]), es[1..], hold, late);
    }
  }

  lemma TurnStep(s: State, e: Event, deadline: Time, hold: nat, late: nat)
    requires Ready(s, hold, late) && Waiting(s, deadline, hold, late)
    requires Enabled(s, e) && OnTime(s, e, late) && Prompt(s, e, hold)
    ensures var r := Step(s, e);
            && (r.started == s.started ==> s.queue <= r.queue && Waiting(r, deadline, hold, late))
            && (r.started != s.started ==>
                  && r.started == s.started + [Start(s.queue[0], r.clock)] && r.clock <= deadline + late
                  && s.queue[1..] <= r.queue)
  {
    if s.activeRequests < MAX_CONCURRENT {
      FreeStep(s, e, deadline, hold, late);
    } else {
      BusyStep(s, e, deadline, hold, late);
    }
  }

  /** `q` turns. */
  function Turns(q: nat, turn: nat): nat {
    if q == 0 then 0 else turn + Turns(q - 1, turn)
  }

  lemma {:induction false} TurnsIs(q: nat, turn: nat)
    ensures Turns(q, turn) == q * turn
  {
    if q == 0 {
    } else {
      TurnsIs(q - 1, turn);
    }
  }

  /** The request `ticket` is the next but `n` to start, and does so by `limit`. */
  ghost predicate StartsNext(s: State, r: State, n: nat, ticket: Ticket, limit: Time) {
    && |r.started| > |s.started| + n
    && r.started[|s.started| + n].ticket == ticket && r.started[|s.started| + n].at <= limit
  }

  lemma CountsOn(s: State, r: State, final: State, q: nat, n: nat, ticket: Ticket, limit: Time)
    requires |s.started| + q == |r.started| + n && StartsNext(r, final, n, ticket, limit)
    ensures StartsNext(s, final, q, ticket, limit)
  {
  }

  lemma StartedFirst(s: State, r: State, final: State, limit: Time)
    requires s.queue != [] && r.started == s.started + [Start(s.queue[0], r.clock)]
    requires r.started <= final.started && r.clock <= limit
    ensures StartsNext(s, final, 0, s.queue[0], limit)
  {
    assert final.started[|s.started|] == r.started[|s.started|];
  }

  /** The run up to the start of the head of the queue. */
  lemma {:induction false} HeadStartsBy(s: State, es: seq<Event>, deadline: Time, hold: nat, late: nat)
    returns (r: State, rest: seq<Event>)
    requires Legal(s, es) && Scheduled(s, es, hold, late) && Waiting(s, deadline, hold, late)
    requires deadline + late < Run(s, es).clock
    ensures Legal(r, rest) && Scheduled(r, rest, hold, late) && Run(r, rest) == Run(s, es)
    ensures r.started == s.started + [Start(s.queue[0], r.clock)]
    ensures r.clock <= deadline + late && s.queue[1..] <= r.queue
    decreases |es|
  {
    if es == [] {
      assert false;
    } else {
      var next := Step(s, es[0]);
      TurnStep(s, es[0], deadline, hold, late);
      if next.started == s.started {
        r, rest := HeadStartsBy(next, es[1..], deadline, hold, late);
        assert s.queue[1..] <= next.queue[1..];
      } else {
        r, rest := next, es[1..];
      }
    }
  }

  lemma {:induction false} HeadStarts(s: State, es: seq<Event>, limit: Time, hold: nat, late: nat, final: State)
    returns (r: State, rest: seq<Event>)
    requires Legal(s, es) && Scheduled(s, es, hold, late) && s.queue != []
    requires final == Run(s, es) && s.clock + Turn(hold, late) <= limit < final.clock
    ensures Legal(r, rest) && Scheduled(r, rest, hold, late) && final == Run(r, rest)
    ensures r.clock <= s.clock + Turn(hold, late) && |r.started| == |s.started| + 1
    ensures StartsNext(s, final, 0, s.queue[0], limit) && s.queue[1..] <= r.queue
  {
    r, rest := HeadStartsBy(s, es, s.clock + hold + MIN_DELAY, hold, late);
    StartedOnlyGrows(r, rest);
    StartedFirst(s, r, final, limit);
  }

  lemma {:induction false} PositionStartsBy(s: State, es: seq<Event>, q: nat, limit: Time,
                                            hold: nat, late: nat, final: State)
    requires Legal(s, es) && Scheduled(s, es, hold, late) && q < |s.queue|
    requires final == Run(s, es) && s.clock + Turns(q + 1, Turn(hold, late)) <= limit < final.clock
    ensures StartsNext(s, final, q, s.queue[q], limit)
    decreases q
  {
    assert Turns(q + 1, Turn(hold, late)) == Turn(hold, late) + Turns(q, Turn(hold, late));
    var r, rest := HeadStarts(s, es, limit, hold, late, final);
    if q == 0 {
    } else {
      assert r.queue[q - 1] == s.queue[1..][q - 1] == s.queue[q];
      PositionStartsBy(r, rest, q - 1, limit, hold, late, final);
      CountsOn(s, r, final, q, q - 1, s.queue[q], limit);
    }
  }

  /** The same from any state of the invariant, with the bound multiplied out. */
  lemma {:induction false} PositionStarts(s: State, es: seq<Event>, q: nat, hold: nat, late: nat, limit: Time)
    requires Inv(s) && Legal(s, es) && OnSchedule(s, es, hold, late) && q < |s.queue|
    requires limit == s.clock + (q + 1) * Turn(hold, late) < Run(s, es).clock
    ensures StartsNext(s, Run(s, es), q, s.queue[q], limit)
  {
    RunIsScheduled(s, es, hold, late);
    TurnsIs(q + 1, Turn(hold, late));
    PositionStartsBy(s, es, q, limit, hold, late, Run(s, es));
  }

  /**
   Bounded waiting: if moreover no request holds its slot longer than `hold`, the request at position
   `q` of the queue is the next but `q` to start and does so within q + 1 turns of `hold` + 200 +
   `late`, in every reachable state and whatever else is added.
   */
  lemma {:induction false} BoundedWaiting(start: Time, before: seq<Event>, after: seq<Event>, q: nat,
                                          hold: nat, late: nat)
    requires start >= 0 && Legal(Init(start), before)
    requires var s := Run(Init(start), before);
             && q < |s.queue| && Legal(s, after) && OnSchedule(s, after, hold, late)
             && Run(s, after).clock > s.clock + (q + 1) * (hold + 200 + late)
    ensures var s := Run(Init(start), before);
            StartsNext(s, Run(s, after), q, s.queue[q], s.clock + (q + 1) * (hold + 200 + late))
  {
    ReachableIsInv(start, before);
    var s := Run(Init(start), before);
    PositionStarts(s, after, q, hold, late, s.clock + (q + 1) * Turn(hold, late));
  }
}
