/**
 The faucet's cooldown in backend/src/routes/faucet.ts.

 A handler is two steps with awaited contract writes in between: Begin checks the cooldown, End sets
 it. Handlers overlap freely, also for one address.
 */
module Faucet {
  import opened Text
  import opened Wrappers

  const COOLDOWN_MINUTES := 5
  const MINUTE := 60000
  const COOLDOWN := COOLDOWN_MINUTES * MINUTE

  type Time = int

  type Cooldowns = map<string, Time>

  /** A recorded time of zero counts as no record: the program tests it for truth. */
  function LastRequest(c: Cooldowns, address: string): Option<Time> {
    var key := Lower(address);
    if key in c && c[key] != 0 then Some(c[key]) else None
  }

  predicate IsOnCooldown(c: Cooldowns, address: string, now: Time) {
    var last := LastRequest(c, address);
    last.Some? && now - last.value < COOLDOWN
  }

  /** `Math.ceil(x / MINUTE)`. */
  function CeilMinutes(x: int): int {
    (x + MINUTE - 1) / MINUTE
  }

  function RemainingMinutes(c: Cooldowns, address: string, now: Time): int {
    var last := LastRequest(c, address);
    if last.None? then 0
    else
      var minutes := CeilMinutes(COOLDOWN - (now - last.value));
      if minutes < 0 then 0 else minutes
  }

  /**
   The two readings of the table agree, and the minutes reported are the least whole number of
   minutes after which the address is off cooldown. A recorded time of zero counts as none.
   */
  lemma RemainingIsLeastWait(c: Cooldowns, address: string, now: Time)
    ensures var minutes := RemainingMinutes(c, address, now);
            && (IsOnCooldown(c, address, now) <==> minutes > 0)
            && !IsOnCooldown(c, address, now + minutes * 60000)
            && (forall k :: 0 <= k < minutes ==> IsOnCooldown(c, address, now + k * 60000))
            && (Lower(address) in c && c[Lower(address)] == 0 ==> minutes == 0)
  {
    var last := LastRequest(c, address);
    if last.Some? {
      var rest := COOLDOWN - (now - last.value);
      assert CeilMinutes(rest) * MINUTE >= rest > (CeilMinutes(rest) - 1) * MINUTE;
    }
  }

  /**
   A refusal reads the clock twice, so it may name zero minutes: exactly when the cooldown ends between
   the two readings.
   */
  lemma RefusalNamesZeroExactlyWhen(c: Cooldowns, address: string, now: Time, later: Time)
    requires now <= later && IsOnCooldown(c, address, now)
    ensures RemainingMinutes(c, address, later) == 0 <==> LastRequest(c, address).value + 300000 <= later
    ensures var one := map["a" := 1];
            IsOnCooldown(one, "a", 300000) && RemainingMinutes(one, "a", 300001) == 0
  {
    RemainingIsLeastWait(c, address, later);
    assert Lower("a") == "a";
  }

  // ---------------------------------------------------------------- handlers

  /** Tokens sent at some time in [begun, ended]. */
  datatype Grant = Grant(key: string, begun: Time, ended: Time)

  /** A handler past its check. */
  datatype Call = Call(key: string, begun: Time)

  datatype Route = Request | RequestAll

  type Id = nat

  datatype State = State(
    faucetCooldowns: Cooldowns,
    inFlight: map<Id, Call>,
    grants: seq<Grant>,
    clock: Time)

  datatype Event =
    | Begin(id: Id, address: string, now: Time, later: Time)
    | End(id: Id, address: string, route: Route, sent: bool, now: Time)

  function Init(now: Time): State {
    State(map[], map[], [], now)
  }

  predicate Enabled(s: State, e: Event) {
    && s.clock <= e.now
    && match e
       case Begin(id, _, now, later) => id !in s.inFlight && now <= later
       case End(id, address, _, _, _) => id in s.inFlight && s.inFlight[id].key == Lower(address)
  }

  /** `sent` says whether any contract write succeeded; only `/request-all` sets the cooldown anyway. */
  function Step(s: State, e: Event): State
    requires Enabled(s, e)
  {
    match e
    case Begin(id, address, now, later) =>
      if IsOnCooldown(s.faucetCooldowns, address, now) then s.(clock := later)
      else s.(clock := now, inFlight := s.inFlight[id := Call(Lower(address), now)])
    case End(id, address, route, sent, now) =>
      var key := Lower(address);
      s.(clock := now, inFlight := s.inFlight - {id},
         faucetCooldowns :=
           if sent || route.RequestAll? then s.faucetCooldowns[key := now] else s.faucetCooldowns,
         grants := if sent then s.grants + [Grant(key, s.inFlight[id].begun, now)] else s.grants)
  }

  class FaucetRoutes {
    var faucetCooldowns: Cooldowns

    ghost var inFlight: map<Id, Call>
    ghost var grants: seq<Grant>
    ghost var clock: Time

    ghost function Now(): State
      reads this
    {
      State(faucetCooldowns, inFlight, grants, clock)
    }

    constructor (ghost now: Time)
      ensures Now() == Init(now)
    {
      faucetCooldowns, inFlight, grants, clock := map[], map[], [], now;
    }

    method SetCooldown(address: string, now: Time)
      modifies this`faucetCooldowns
      ensures faucetCooldowns == old(faucetCooldowns)[Lower(address) := now]
    {
      faucetCooldowns := faucetCooldowns[Lower(address) := now];
    }

    /**
     Either handler up to its first contract write. The check reads the clock, and a refusal reads it
     again for the minutes left.
     */
    method BeginHandler(ghost id: Id, address: string, now: Time, later: Time) returns (refusal: Option<int>)
      requires Enabled(Now(), Begin(id, address, now, later))
      modifies this
      ensures Now() == Step(old(Now()), Begin(id, address, now, later))
      ensures refusal == if IsOnCooldown(old(faucetCooldowns), address, now)
                         then Some(RemainingMinutes(old(faucetCooldowns), address, later)) else None
    {
      if IsOnCooldown(faucetCooldowns, address, now) {
        clock := later;
        return Some(RemainingMinutes(faucetCooldowns, address, later));
      }
      clock := now;
      inFlight := inFlight[id := Call(Lower(address), now)];
      return None;
    }

    /** The end of `/request`, whose single write throws when it fails, or of `/request-all`. */
    method EndHandler(ghost id: Id, address: string, route: Route, sent: bool, now: Time)
      requires Enabled(Now(), End(id, address, route, sent, now))
      modifies this
      ensures Now() == Step(old(Now()), End(id, address, route, sent, now))
    {
      clock := now;
      if sent || route == RequestAll {
        SetCooldown(address, now);
      }
      if sent {
        grants := grants + [Grant(Lower(address), inFlight[id].begun, now)];
      }
      inFlight := inFlight - {id};
    }
  }

  // ---------------------------------------------------------------- invariant

  ghost predicate Recorded(s: State) {
    && (forall k :: k in s.faucetCooldowns ==> 0 < s.faucetCooldowns[k] <= s.clock)
    && (forall i :: 0 <= i < |s.grants| ==>
          var g := s.grants[i];
          g.key in s.faucetCooldowns && g.begun <= g.ended <= s.faucetCooldowns[g.key])
    && (forall id :: id in s.inFlight ==> s.inFlight[id].begun <= s.clock)
  }

  /** A handler begun at `begun` either overlapped the grant or waited out its cooldown. */
  predicate OverlapsOrWaited(begun: Time, g: Grant) {
    begun <= g.ended || begun - g.ended >= COOLDOWN
  }

  ghost predicate Waited(s: State) {
    forall id, i :: id in s.inFlight && 0 <= i < |s.grants| && s.grants[i].key == s.inFlight[id].key ==>
      OverlapsOrWaited(s.inFlight[id].begun, s.grants[i])
  }

  ghost predicate Separated(grants: seq<Grant>) {
    forall i, j :: 0 <= i < j < |grants| && grants[i].key == grants[j].key ==>
      grants[i].ended <= grants[j].ended && OverlapsOrWaited(grants[j].begun, grants[i])
  }

  ghost predicate Inv(s: State) {
    s.clock > 0 && Recorded(s) && Waited(s) && Separated(s.grants)
  }

  lemma BeginKeepsInv(s: State, e: Event)
    requires Inv(s) && Enabled(s, e) && e.Begin?
    ensures Inv(Step(s, e))
  {
    var r := Step(s, e);
    forall id, i | id in r.inFlight && 0 <= i < |r.grants| && r.grants[i].key == r.inFlight[id].key
      ensures OverlapsOrWaited(r.inFlight[id].begun, r.grants[i])
    {
      assert r.grants[i] == s.grants[i];
      if id in s.inFlight {
        assert OverlapsOrWaited(s.inFlight[id].begun, s.grants[i]);
      }
    }
  }

  lemma EndKeepsRecorded(s: State, e: Event)
    requires Inv(s) && Enabled(s, e) && e.End?
    ensures Recorded(Step(s, e))
  {
    var r := Step(s, e);
    forall i | 0 <= i < |r.grants|
      ensures var g := r.grants[i];
              g.key in r.faucetCooldowns && g.begun <= g.ended <= r.faucetCooldowns[g.key]
    {
      if i < |s.grants| {
        assert r.grants[i] == s.grants[i];
      }
    }
  }

  lemma EndKeepsInv(s: State, e: Event)
    requires Inv(s) && Enabled(s, e) && e.End?
    ensures Inv(Step(s, e))
  {
    var r := Step(s, e);
    EndKeepsRecorded(s, e);
    forall id, i | id in r.inFlight && 0 <= i < |r.grants| && r.grants[i].key == r.inFlight[id].key
      ensures OverlapsOrWaited(r.inFlight[id].begun, r.grants[i])
    {
      assert r.inFlight[id] == s.inFlight[id];
      if i < |s.grants| {
        assert r.grants[i] == s.grants[i];
      }
    }
    forall i, j | 0 <= i < j < |r.grants| && r.grants[i].key == r.grants[j].key
      ensures r.grants[i].ended <= r.grants[j].ended && OverlapsOrWaited(r.grants[j].begun, r.grants[i])
    {
      assert r.grants[i] == s.grants[i];
      if j < |s.grants| {
        assert r.grants[j] == s.grants[j];
      }
    }
  }

  predicate Legal(s: State, es: seq<Event>)
    decreases |es|
  {
    es == [] || (Enabled(s, es[0]) && Legal(Step(s, es[0]), es[1..]))
  }

  function Run(s: State, es: seq<Event>): State
    requires Legal(s, es)
    decreases |es|
  {
    if es == [] then s else Run(Step(s, es[0]), es[1..])
  }

  lemma {:induction false} RunKeepsInv(s: State, es: seq<Event>)
    requires Inv(s) && Legal(s, es)
    ensures Inv(Run(s, es))
    decreases |es|
  {
    if es == [] {
    } else {
      if es[0].Begin? {
        BeginKeepsInv(s, es[0]);
      } else {
        EndKeepsInv(s, es[0]);
      }
      RunKeepsInv(Step(s, es[0]), es[1..]);
    }
  }

  // ---------------------------------------------------------------- refusals, read off the trace

  /** The end of a handler for this address, in whatever spelling, that sets the cooldown. */
  ghost predicate Sets(e: Event, address: string) {
    e.End? && SameUpToCase(e.address, address) && (e.sent || e.route.RequestAll?)
  }

  /** The address was served, or tried in vain to get all tokens, less than five minutes before `now`. */
  ghost predicate SetRecently(es: seq<Event>, address: string, now: Time) {
    exists i :: 0 <= i < |es| && Sets(es[i], address) && now - es[i].now < 300000
  }

  lemma {:induction false} FirstSet(e: Event, es: seq<Event>, address: string, now: Time)
    ensures SetRecently([e] + es, address, now)
       <==> (Sets(e, address) && now - e.now < 300000) || SetRecently(es, address, now)
  {
    var all := [e] + es;
    if SetRecently(es, address, now) {
      var i :| 0 <= i < |es| && Sets(es[i], address) && now - es[i].now < 300000;
      assert all[i + 1] == es[i];
    }
    if Sets(e, address) && now - e.now < 300000 {
      assert all[0] == e;
    }
    if SetRecently(all, address, now) {
      var i :| 0 <= i < |all| && Sets(all[i], address) && now - all[i].now < 300000;
      assert i > 0 ==> all[i] == es[i - 1];
    }
  }

  lemma StepSets(s: State, e: Event, address: string, now: Time)
    requires Inv(s) && Enabled(s, e)
    ensures IsOnCooldown(Step(s, e).faucetCooldowns, address, now)
       <==> (Sets(e, address) && now - e.now < 300000) || IsOnCooldown(s.faucetCooldowns, address, now)
  {
    if e.End? {
      LowerIdentifies(e.address, address);
    }
  }

  lemma {:induction false} RunSets(s: State, es: seq<Event>, address: string, now: Time)
    requires Inv(s) && Legal(s, es)
    ensures IsOnCooldown(Run(s, es).faucetCooldowns, address, now)
       <==> SetRecently(es, address, now) || IsOnCooldown(s.faucetCooldowns, address, now)
    decreases |es|
  {
    if es == [] {
    } else {
      if es[0].Begin? {
        BeginKeepsInv(s, es[0]);
      } else {
        EndKeepsInv(s, es[0]);
      }
      StepSets(s, es[0], address, now);
      RunSets(Step(s, es[0]), es[1..], address, now);
      FirstSet(es[0], es[1..], address, now);
      assert es == [es[0]] + es[1..];
    }
  }

  lemma BeginDoes(s: State, e: Event)
    requires Enabled(s, e) && e.Begin?
    ensures Step(s, e).faucetCooldowns == s.faucetCooldowns && Step(s, e).grants == s.grants
    ensures Step(s, e).inFlight == if IsOnCooldown(s.faucetCooldowns, e.address, e.now) then s.inFlight
                                   else s.inFlight[e.id := Call(Lower(e.address), e.now)]
  {
  }

  /** Tokens are granted, to the address and for the time of the handler, exactly when they were sent. */
  lemma GrantedExactlyWhenSent(s: State, e: Event)
    requires Enabled(s, e) && e.End?
    ensures Step(s, e).grants == s.grants
              + if e.sent then [Grant(Lower(e.address), s.inFlight[e.id].begun, e.now)] else []
    ensures Step(s, e).inFlight == s.inFlight - {e.id}
  {
    assert s.grants + [] == s.grants;
  }

  /**
   Exactly when a handler is turned away, over any run: when, less than five minutes before, a handler for
   the same address in any spelling ended that had sent tokens or was a `/request-all`. A `/request` that
   failed turns nobody away.
   */
  lemma {:induction false} RefusedExactlyWhen(start: Time, es: seq<Event>, e: Event)
    requires start > 0 && Legal(Init(start), es) && Enabled(Run(Init(start), es), e) && e.Begin?
    ensures var s := Run(Init(start), es);
            Step(s, e).inFlight == if SetRecently(es, e.address, e.now) then s.inFlight
                                   else s.inFlight[e.id := Call(Lower(e.address), e.now)]
  {
    RunSets(Init(start), es, e.address, e.now);
    BeginDoes(Run(Init(start), es), e);
  }

  // ---------------------------------------------------------------- spacing of grants

  predicate Overlap(g: Grant, h: Grant) {
    g.begun <= h.ended && h.begun <= g.ended
  }

  /**
   Exactly when the cooldown is kept: over any run, of two grants to the same address, compared without
   regard to case, the handler of the later one began at least the cooldown after the earlier one ended,
   unless the two handlers overlapped.
   */
  lemma {:induction false} GrantsAreSpacedExactlyWhen(start: Time, es: seq<Event>, i: nat, j: nat)
    requires start > 0 && Legal(Init(start), es)
    requires i < j < |Run(Init(start), es).grants|
    requires Run(Init(start), es).grants[i].key == Run(Init(start), es).grants[j].key
    ensures var g, h := Run(Init(start), es).grants[i], Run(Init(start), es).grants[j];
            h.begun - g.ended >= 300000 <==> !Overlap(g, h)
  {
    RunKeepsInv(Init(start), es);
  }

  lemma {:induction false} RunCons(s: State, e: Event, es: seq<Event>)
    requires Enabled(s, e) && Legal(Step(s, e), es)
    ensures Legal(s, [e] + es) && Run(s, [e] + es) == Run(Step(s, e), es)
  {
    assert ([e] + es)[1..] == es;
  }

  /** Two handlers that pass their checks before either sets the cooldown. */
  function OverlappingRun(address: string): seq<Event> {
    [Begin(0, address, 1, 1)] + ([Begin(1, address, 1, 1)] +
      ([End(0, address, Request, true, 2)] + ([End(1, address, Request, true, 2)] + [])))
  }

  /** Overlap does happen: one address is granted tokens twice in a millisecond. */
  lemma {:induction false} OverlapIsReached(address: string)
    ensures var es, g := OverlappingRun(address), Grant(Lower(address), 1, 2);
            Legal(Init(1), es) && Run(Init(1), es).grants == [g, g] && Overlap(g, g)
  {
    var s0 := Init(1);
    var e1, e2 := Begin(0, address, 1, 1), Begin(1, address, 1, 1);
    var e3, e4 := End(0, address, Request, true, 2), End(1, address, Request, true, 2);
    var s1 := Step(s0, e1);
    var s2 := Step(s1, e2);
    var s3 := Step(s2, e3);
    RunCons(s3, e4, []);
    RunCons(s2, e3, [e4] + []);
    RunCons(s1, e2, [e3] + ([e4] + []));
    RunCons(s0, e1, [e2] + ([e3] + ([e4] + [])));
  }
}
