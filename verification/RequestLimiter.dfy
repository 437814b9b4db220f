/**
 The global request limiter of src/utils/requestLimiter.ts.

 The program has three mutable fields (`queue`, `activeRequests`, `lastRequestTime`); everything
 else that decides what happens next lives in the JavaScript runtime: the clock, the pending
 `setTimeout`s, the requests in flight and the promises handed to callers. `State` holds both.
 A step is a maximal piece of code that runs without yielding:
   - Add:     `addRequest` up to its return, including the call of `processQueue`;
   - Fire:    a due timer's callback, that is, one call of `processQueue`;
   - Settle:  the wrapped request settles its caller's promise (`resolve` or `reject`);
   - Release: the `finally` block that follows, in a later microtask.
 An `addRequest` made from inside a request that is just being started is an Add right after the
 step that started it: both counters are already updated when the request function runs.
 */
module RequestLimiter {

  const MAX_CONCURRENT := 3
  const MIN_DELAY := 200

  /** Milliseconds, as returned by `Date.now()`. */
  type Time = int

  /** The identity of the closure pushed by one call of `addRequest`. */
  type Ticket = nat

  datatype Outcome = Resolved(value: string) | Rejected(reason: string)

  datatype Start = Start(ticket: Ticket, at: Time)

  datatype State = State(
    queue: seq<Ticket>,
    activeRequests: int,
    lastRequestTime: Time,
    clock: Time,                     // time of the latest step
    timers: seq<Time>,               // due times of the pending timers
    submitted: seq<Ticket>,          // all calls of addRequest, in order
    started: seq<Start>,             // all requests taken off the queue, in order
    running: set<Ticket>,            // started, promise still pending
    releasing: set<Ticket>,          // promise settled, `finally` block still to run
    settled: map<Ticket, Outcome>)   // what each caller's promise settled with

  datatype Event =
    | Add(ticket: Ticket, now: Time, later: Time)
    | Fire(timer: nat, now: Time, later: Time)
    | Settle(ticket: Ticket, outcome: Outcome, now: Time)
    | Release(ticket: Ticket, now: Time)

  function Init(now: Time): State {
    State([], 0, 0, now, [], [], [], {}, {}, map[])
  }

  /** One call of `processQueue`. `now` and `later` are its two readings of the clock. */
  function QueueProcessed(s: State, now: Time, later: Time): State {
    if s.activeRequests >= MAX_CONCURRENT || s.queue == [] then
      s.(clock := now)
    else if now - s.lastRequestTime < MIN_DELAY then
      s.(clock := now, timers := s.timers + [now + (MIN_DELAY - (now - s.lastRequestTime))])
    else
      s.(clock := later,
         queue := s.queue[1..],
         activeRequests := s.activeRequests + 1,
         lastRequestTime := later,
         started := s.started + [Start(s.queue[0], later)],
         running := s.running + {s.queue[0]})
  }

  function Without(timers: seq<Time>, k: nat): seq<Time>
    requires k < |timers|
  {
    timers[..k] + timers[k + 1..]
  }

  /** Time does not run backwards, timers do not fire early, and each closure is a new one. */
  predicate Enabled(s: State, e: Event) {
    && s.clock <= e.now
    && match e
       case Add(t, now, later) => t !in s.submitted && now <= later
       case Fire(k, now, later) => k < |s.timers| && s.timers[k] <= now <= later
       case Settle(t, _, _) => t in s.running
       case Release(t, _) => t in s.releasing
  }

  function Step(s: State, e: Event): State
    requires Enabled(s, e)
  {
    match e
    case Add(t, now, later) =>
      QueueProcessed(s.(queue := s.queue + [t], submitted := s.submitted + [t]), now, later)
    case Fire(k, now, later) =>
      QueueProcessed(s.(timers := Without(s.timers, k)), now, later)
    case Settle(t, outcome, now) =>
      s.(clock := now, running := s.running - {t}, releasing := s.releasing + {t},
         settled := s.settled[t := outcome])
    case Release(t, now) =>
      s.(clock := now, activeRequests := s.activeRequests - 1, releasing := s.releasing - {t},
         timers := s.timers + [now + MIN_DELAY])
  }

  // ---------------------------------------------------------------- invariant

  function Tickets(log: seq<Start>): seq<Ticket> {
    seq(|log|, i requires 0 <= i < |log| => log[i].ticket)
  }

  ghost predicate Distinct(s: seq<Ticket>) {
    forall i, j :: 0 <= i < j < |s| ==> s[i] != s[j]
  }

  function Min(a: int, b: int): int {
    if a < b then a else b
  }

  /** The started requests and then the queued ones are the submitted ones, each of them once. */
  ghost predicate Ordered(s: State) {
    Distinct(s.submitted) && Tickets(s.started) + s.queue == s.submitted
  }

  /** Every started request is running or settled, and the counter counts the slots in use. */
  ghost predicate Placed(s: State) {
    && s.running !! s.settled.Keys
    && s.releasing <= s.settled.Keys
    && (forall t :: t in Tickets(s.started) <==> t in s.running || t in s.settled)
    && |s.started| == |s.running| + |s.settled|
    && s.activeRequests == |s.running| + |s.releasing| <= MAX_CONCURRENT
  }

  ghost predicate Accounted(s: State) {
    Ordered(s) && Placed(s)
  }

  /** A free slot with waiting work always has a wake-up coming, and soon. */
  ghost predicate WakeUps(s: State) {
    && |s.timers| >= Min(MAX_CONCURRENT - s.activeRequests, |s.queue|)
    && (forall k :: 0 <= k < |s.timers| ==> s.timers[k] <= s.clock + MIN_DELAY)
  }

  /** Any two starts are apart by as many minimum delays as there are steps between them. */
  ghost predicate Spaced(log: seq<Start>) {
    forall i, j :: 0 <= i <= j < |log| ==> log[j].at - log[i].at >= (j - i) * MIN_DELAY
  }

  ghost predicate Paced(s: State) {
    && s.lastRequestTime == (if s.started == [] then 0 else s.started[|s.started| - 1].at)
    && s.lastRequestTime <= s.clock
    && Spaced(s.started)
  }

  ghost predicate Inv(s: State) {
    Accounted(s) && WakeUps(s) && Paced(s)
  }

  predicate Takes(s: State, now: Time) {
    && s.activeRequests < MAX_CONCURRENT
    && s.queue != []
    && now - s.lastRequestTime >= MIN_DELAY
  }

  lemma HeadIsNew(s: State)
    requires Accounted(s) && s.queue != []
    ensures s.queue[0] !in Tickets(s.started)
    ensures s.queue[0] !in s.running && s.queue[0] !in s.settled
  {
    assert s.submitted[|s.started|] == s.queue[0];
    forall i | 0 <= i < |s.started|
      ensures Tickets(s.started)[i] != s.queue[0]
    {
      assert s.submitted[i] == Tickets(s.started)[i];
    }
  }

  lemma TicketsExtend(log: seq<Start>, next: Start)
    ensures Tickets(log + [next]) == Tickets(log) + [next.ticket]
    ensures forall t :: t in Tickets(log + [next]) <==> t in Tickets(log) || t == next.ticket
  {
    assert Tickets(log + [next]) == Tickets(log) + [next.ticket];
  }

  lemma TakeKeepsOrdered(s: State, now: Time, later: Time)
    requires Ordered(s) && Takes(s, now)
    ensures Ordered(QueueProcessed(s, now, later))
  {
    TicketsExtend(s.started, Start(s.queue[0], later));
    assert Tickets(s.started) + s.queue == Tickets(s.started) + [s.queue[0]] + s.queue[1..];
  }

  lemma TakeKeepsPlaced(s: State, now: Time, later: Time)
    requires Placed(s) && Takes(s, now)
    requires s.queue[0] !in s.running && s.queue[0] !in s.settled.Keys
    ensures Placed(QueueProcessed(s, now, later))
  {
    TicketsExtend(s.started, Start(s.queue[0], later));
    assert |s.running + {s.queue[0]}| == |s.running| + 1;
  }

  lemma TakeKeepsAccounted(s: State, now: Time, later: Time)
    requires Accounted(s) && Takes(s, now)
    ensures Accounted(QueueProcessed(s, now, later))
  {
    HeadIsNew(s);
    TakeKeepsOrdered(s, now, later);
    TakeKeepsPlaced(s, now, later);
  }

  lemma ProcessQueueKeepsWakeUps(s: State, now: Time, later: Time)
    requires Paced(s) && s.clock <= now <= later
    requires s.activeRequests <= MAX_CONCURRENT
    requires forall k :: 0 <= k < |s.timers| ==> s.timers[k] <= s.clock + MIN_DELAY
    requires |s.timers| + 1 >= Min(MAX_CONCURRENT - s.activeRequests, |s.queue|)
    ensures WakeUps(QueueProcessed(s, now, later))
  {
  }

  lemma SpacedExtends(log: seq<Start>, next: Start)
    requires Spaced(log)
    requires log != [] ==> next.at - log[|log| - 1].at >= MIN_DELAY
    ensures Spaced(log + [next])
  {
    forall i | 0 <= i < |log|
      ensures next.at - log[i].at >= (|log| - i) * MIN_DELAY
    {
      assert log[|log| - 1].at - log[i].at >= (|log| - 1 - i) * MIN_DELAY;
    }
  }

  lemma ProcessQueueKeepsPaced(s: State, now: Time, later: Time)
    requires Paced(s) && s.clock <= now <= later
    ensures Paced(QueueProcessed(s, now, later))
  {
    if Takes(s, now) {
      SpacedExtends(s.started, Start(s.queue[0], later));
    }
  }

  lemma ProcessQueueKeepsInv(s: State, now: Time, later: Time)
    requires Accounted(s) && Paced(s) && s.clock <= now <= later
    requires forall k :: 0 <= k < |s.timers| ==> s.timers[k] <= s.clock + MIN_DELAY
    requires |s.timers| + 1 >= Min(MAX_CONCURRENT - s.activeRequests, |s.queue|)
    ensures Inv(QueueProcessed(s, now, later))
  {
    ProcessQueueKeepsWakeUps(s, now, later);
    ProcessQueueKeepsPaced(s, now, later);
    if Takes(s, now) {
      TakeKeepsAccounted(s, now, later);
    }
  }

  lemma SettleKeepsPlaced(s: State, e: Event)
    requires e.Settle? && Placed(s) && Enabled(s, e)
    ensures Placed(Step(s, e))
  {
    var r := Step(s, e);
    assert e.ticket !in s.settled.Keys;
    assert r.settled.Keys == s.settled.Keys + {e.ticket};
    assert |r.settled| == |r.settled.Keys| == |s.settled.Keys| + 1;
    assert |r.running| == |s.running| - 1 && |r.releasing| == |s.releasing| + 1;
  }

  lemma SettleKeepsInv(s: State, e: Event)
    requires e.Settle? && Inv(s) && Enabled(s, e)
    ensures Inv(Step(s, e))
  {
    SettleKeepsPlaced(s, e);
    assert Ordered(Step(s, e)) && WakeUps(Step(s, e)) && Paced(Step(s, e));
  }

  lemma ReleaseKeepsPlaced(s: State, e: Event)
    requires e.Release? && Placed(s) && Enabled(s, e)
    ensures Placed(Step(s, e))
  {
    assert |Step(s, e).releasing| == |s.releasing| - 1;
  }

  lemma ReleaseKeepsInv(s: State, e: Event)
    requires e.Release? && Inv(s) && Enabled(s, e)
    ensures Inv(Step(s, e))
  {
    ReleaseKeepsPlaced(s, e);
    assert Ordered(Step(s, e)) && WakeUps(Step(s, e)) && Paced(Step(s, e));
  }

  lemma AddKeepsAccounted(s: State, t: Ticket)
    requires Accounted(s) && t !in s.submitted
    ensures Accounted(s.(queue := s.queue + [t], submitted := s.submitted + [t]))
  {
    assert Tickets(s.started) + (s.queue + [t]) == s.submitted + [t];
  }

  lemma StepKeepsInv(s: State, e: Event)
    requires Inv(s) && Enabled(s, e)
    ensures Inv(Step(s, e))
  {
    match e {
      case Add(t, now, later) =>
        AddKeepsAccounted(s, t);
        ProcessQueueKeepsInv(s.(queue := s.queue + [t], submitted := s.submitted + [t]), now, later);
      case Fire(k, now, later) =>
        ProcessQueueKeepsInv(s.(timers := Without(s.timers, k)), now, later);
      case Settle(_, _, _) =>
        SettleKeepsInv(s, e);
      case Release(_, _) =>
        ReleaseKeepsInv(s, e);
    }
  }

  // ---------------------------------------------------------------- the program

  /**
   The class itself. The ghost fields are the runtime's share of the state; every method states the
   whole new state as a step of the machine above, so `StepKeepsInv` says what every method keeps.
   */
  class Limiter {
    var queue: seq<Ticket>
    var activeRequests: int
    var lastRequestTime: Time

    ghost var clock: Time
    ghost var timers: seq<Time>
    ghost var submitted: seq<Ticket>
    ghost var started: seq<Start>
    ghost var running: set<Ticket>
    ghost var releasing: set<Ticket>
    ghost var settled: map<Ticket, Outcome>

    ghost function Now(): State
      reads this
    {
      State(queue, activeRequests, lastRequestTime, clock, timers, submitted, started, running,
            releasing, settled)
    }

    constructor (ghost now: Time)
      requires now >= 0
      ensures Now() == Init(now) && Inv(Now())
    {
      queue, activeRequests, lastRequestTime := [], 0, 0;
      clock, timers, submitted, started := now, [], [], [];
      running, releasing, settled := {}, {}, map[];
    }

    /** `processQueue` up to `await request()`. */
    method ProcessQueue(now: Time, later: Time)
      modifies this
      ensures Now() == QueueProcessed(old(Now()), now, later)
    {
      clock := now;
      if activeRequests >= MAX_CONCURRENT || |queue| == 0 {
        return;
      }
      var timeSinceLastRequest := now - lastRequestTime;
      if timeSinceLastRequest < MIN_DELAY {
        timers := timers + [now + (MIN_DELAY - timeSinceLastRequest)];
        return;
      }
      var request := queue[0];
      queue := queue[1..];
      activeRequests := activeRequests + 1;
      clock := later;
      lastRequestTime := later;
      started := started + [Start(request, later)];
      running := running + {request};
    }

    method AddRequest(ticket: Ticket, now: Time, later: Time)
      requires Enabled(Now(), Add(ticket, now, later))
      modifies this
      ensures Now() == Step(old(Now()), Add(ticket, now, later))
    {
      queue := queue + [ticket];
      submitted := submitted + [ticket];
      ProcessQueue(now, later);
    }

    method TimerCallback(ghost timer: nat, now: Time, later: Time)
      requires Enabled(Now(), Fire(timer, now, later))
      modifies this
      ensures Now() == Step(old(Now()), Fire(timer, now, later))
    {
      timers := Without(timers, timer);
      ProcessQueue(now, later);
    }

    /** The wrapped request resolves or rejects the promise its caller holds. */
    ghost method SettlePromise(ticket: Ticket, outcome: Outcome, now: Time)
      requires Enabled(Now(), Settle(ticket, outcome, now))
      modifies this`clock, this`running, this`releasing, this`settled
      ensures Now() == Step(old(Now()), Settle(ticket, outcome, now))
    {
      clock := now;
      running := running - {ticket};
      releasing := releasing + {ticket};
      settled := settled[ticket := outcome];
    }

    /** The `finally` block of `processQueue`. */
    method Finally(ghost ticket: Ticket, ghost now: Time)
      requires Enabled(Now(), Release(ticket, now))
      modifies this
      ensures Now() == Step(old(Now()), Release(ticket, now))
    {
      activeRequests := activeRequests - 1;
      clock := now;
      releasing := releasing - {ticket};
      timers := timers + [now + MIN_DELAY];
    }
  }
}
