/**
 The two-step withdrawal of src/hooks/useWithdrawFlow.ts as a state machine.

 React state changes in two steps: `setState` queues an update, and a later render applies the queue.
 Handlers and effects read the state of the render they were created in, which may be arbitrarily old;
 the ref `pendingAmount` they read and write directly. Every step below therefore carries what its
 closure saw as an arbitrary value. Awaited calls come back whenever they like, also after a reset or
 after a newer attempt has begun; each remembers the attempt it belongs to.
 */
module WithdrawFlow {
  import opened Wrappers

  datatype Stage = Idle | Approval | Redemption | Completed | Failed

  datatype Flow = Flow(isWithdrawing: bool, step: Stage)

  /** `setState(value)` and `setState(prev => ({...prev, step}))`. */
  datatype Update = Replace(flow: Flow) | SetStep(step: Stage)

  /** The number of an attempt: its place among all attempts made. */
  type Attempt = nat

  /** A call of `redeemTokens` on behalf of attempt `owner`, while `latest` was the latest one. */
  datatype Redeem = Redeem(given: Option<string>, owner: Attempt, latest: Attempt)

  datatype State = State(
    rendered: Flow,
    queue: seq<Update>,
    pendingAmount: Option<string>,
    delaying: multiset<Attempt>,   // owners of continuations in the half-second delay
    awaiting: multiset<Attempt>,   // owners of continuations awaiting approveTokens or redeemTokens
    amounts: seq<string>,          // the amount of every attempt
    redeems: seq<Redeem>)

  /** What `needsApproval(amount)` does. */
  datatype Needs = Yes | No | Throws

  datatype Event =
    | Start(amount: string, sawWithdrawing: bool, needs: Needs)
    | ApproveEffect(sawStep: Stage, approveSuccess: bool)
    | DelayElapsed(owner: Attempt)
    | Resolve(owner: Attempt)
    | Reject(owner: Attempt)
    | RedeemEffect(sawStep: Stage, redeemSuccess: bool)
    | CancelEffect(sawStep: Stage, isApproving: bool, isRedeeming: bool, approveSuccess: bool, redeemSuccess: bool)
    | Reset
    | Render

  const INITIAL := State(Flow(false, Idle), [], None, multiset{}, multiset{}, [], [])

  function Latest(amounts: seq<string>): Attempt {
    if amounts == [] then 0 else |amounts| - 1
  }

  function Apply(f: Flow, u: Update): Flow {
    match u
    case Replace(flow) => flow
    case SetStep(step) => f.(step := step)
  }

  function ApplyAll(f: Flow, queue: seq<Update>): Flow {
    if queue == [] then f else Apply(ApplyAll(f, queue[..|queue| - 1]), queue[|queue| - 1])
  }

  /** The state once every queued update is applied. */
  function Current(s: State): Flow {
    ApplyAll(s.rendered, s.queue)
  }

  /** `setState({isWithdrawing: false, step})` together with clearing the ref. */
  function Finish(s: State, step: Stage): State {
    s.(queue := s.queue + [Replace(Flow(false, step))], pendingAmount := None)
  }

  predicate Enabled(s: State, e: Event) {
    match e
    case DelayElapsed(owner) => owner in s.delaying
    case Resolve(owner) => owner in s.awaiting
    case Reject(owner) => owner in s.awaiting
    case _ => true
  }

  function Step(s: State, e: Event): State
    requires Enabled(s, e)
  {
    match e
    case Start(amount, sawWithdrawing, needs) =>
      if amount == "" || sawWithdrawing then s
      else
        var attempt := |s.amounts|;
        var begun := s.(pendingAmount := Some(amount), amounts := s.amounts + [amount]);
        (match needs
         case Throws => Finish(begun, Failed)
         case Yes =>
           begun.(queue := s.queue + [Replace(Flow(true, Approval))], awaiting := s.awaiting + multiset{attempt})
         case No =>
           begun.(queue := s.queue + [Replace(Flow(true, Redemption))], awaiting := s.awaiting + multiset{attempt},
                  redeems := s.redeems + [Redeem(Some(amount), attempt, attempt)]))
    case ApproveEffect(sawStep, approveSuccess) =>
      if approveSuccess && sawStep == Approval && s.pendingAmount.Some? then
        s.(queue := s.queue + [SetStep(Redemption)], delaying := s.delaying + multiset{Latest(s.amounts)})
      else s
    case DelayElapsed(owner) =>
      s.(delaying := s.delaying - multiset{owner}, awaiting := s.awaiting + multiset{owner},
         redeems := s.redeems + [Redeem(s.pendingAmount, owner, Latest(s.amounts))])
    case Resolve(owner) => s.(awaiting := s.awaiting - multiset{owner})
    case Reject(owner) => Finish(s.(awaiting := s.awaiting - multiset{owner}), Failed)
    case RedeemEffect(sawStep, redeemSuccess) =>
      if redeemSuccess && (sawStep == Redemption || sawStep == Approval) then Finish(s, Completed) else s
    case CancelEffect(sawStep, isApproving, isRedeeming, approveSuccess, redeemSuccess) =>
      if sawStep == Approval && !isApproving && !approveSuccess then Finish(s, Failed)
      else if sawStep == Redemption && !isRedeeming && !redeemSuccess then Finish(s, Failed)
      else s
    case Reset => Finish(s, Idle)
    case Render => s.(rendered := Current(s), queue := [])
  }

  // ---------------------------------------------------------------- the program

  class Hook {
    var rendered: Flow
    var queue: seq<Update>
    var pendingAmount: Option<string>

    ghost var delaying: multiset<Attempt>
    ghost var awaiting: multiset<Attempt>
    ghost var amounts: seq<string>
    ghost var redeems: seq<Redeem>

    ghost function Now(): State
      reads this
    {
      State(rendered, queue, pendingAmount, delaying, awaiting, amounts, redeems)
    }

    constructor ()
      ensures Now() == INITIAL
    {
      rendered, queue, pendingAmount := Flow(false, Idle), [], None;
      delaying, awaiting, amounts, redeems := multiset{}, multiset{}, [], [];
    }

    method SetState(u: Update)
      modifies this`queue
      ensures queue == old(queue) + [u]
    {
      queue := queue + [u];
    }

    /** `startWithdrawal` up to its first `await`. */
    method StartWithdrawal(amount: string, sawWithdrawing: bool, needs: Needs)
      modifies this
      ensures Now() == Step(old(Now()), Start(amount, sawWithdrawing, needs))
    {
      if amount == "" || sawWithdrawing {
        return;
      }
      ghost var attempt := |amounts|;
      pendingAmount := Some(amount);
      amounts := amounts + [amount];
      if needs == Throws {
        SetState(Replace(Flow(false, Failed)));
        pendingAmount := None;
        return;
      }
      SetState(Replace(Flow(true, if needs == Yes then Approval else Redemption)));
      awaiting := awaiting + multiset{attempt};
      if needs == No {
        redeems := redeems + [Redeem(Some(amount), attempt, attempt)];
      }
    }

    /** The effect that moves on to redemption once the approval has gone through. */
    method ApprovalEffect(sawStep: Stage, approveSuccess: bool)
      modifies this
      ensures Now() == Step(old(Now()), ApproveEffect(sawStep, approveSuccess))
    {
      if approveSuccess && sawStep == Approval && pendingAmount != None {
        SetState(SetStep(Redemption));
        delaying := delaying + multiset{Latest(amounts)};
      }
    }

    /** The continuation after the delay reads the ref again. */
    method RedeemAfterDelay(ghost owner: Attempt) returns (given: Option<string>)
      requires owner in delaying
      modifies this
      ensures Now() == Step(old(Now()), DelayElapsed(owner)) && given == old(pendingAmount)
    {
      given := pendingAmount;
      delaying := delaying - multiset{owner};
      awaiting := awaiting + multiset{owner};
      redeems := redeems + [Redeem(given, owner, Latest(amounts))];
    }

    /** Both `catch` blocks: an awaited call was rejected. */
    method Catch(ghost owner: Attempt)
      requires owner in awaiting
      modifies this
      ensures Now() == Step(old(Now()), Reject(owner))
    {
      awaiting := awaiting - multiset{owner};
      SetState(Replace(Flow(false, Failed)));
      pendingAmount := None;
    }

    method RedemptionEffect(sawStep: Stage, redeemSuccess: bool)
      modifies this
      ensures Now() == Step(old(Now()), RedeemEffect(sawStep, redeemSuccess))
    {
      if redeemSuccess && (sawStep == Redemption || sawStep == Approval) {
        SetState(Replace(Flow(false, Completed)));
        pendingAmount := None;
      }
    }

    method CancellationEffect(sawStep: Stage, isApproving: bool, isRedeeming: bool,
                              approveSuccess: bool, redeemSuccess: bool)
      modifies this
      ensures Now() == Step(old(Now()),
                CancelEffect(sawStep, isApproving, isRedeeming, approveSuccess, redeemSuccess))
    {
      if sawStep == Approval && !isApproving && !approveSuccess {
        SetState(Replace(Flow(false, Failed)));
        pendingAmount := None;
      }
      if sawStep == Redemption && !isRedeeming && !redeemSuccess {
        SetState(Replace(Flow(false, Failed)));
        pendingAmount := None;
      }
    }

    method ResetFlow()
      modifies this
      ensures Now() == Step(old(Now()), Reset)
    {
      SetState(Replace(Flow(false, Idle)));
      pendingAmount := None;
    }
  }

  // ---------------------------------------------------------------- consistency

  predicate Active(step: Stage) {
    step == Approval || step == Redemption
  }

  /** Withdrawing, an active step and a pending amount go together. */
  ghost predicate FlowInv(s: State) {
    && (Current(s).isWithdrawing <==> Active(Current(s).step))
    && (Current(s).isWithdrawing <==> s.pendingAmount.Some?)
    && (s.rendered.isWithdrawing <==> Active(s.rendered.step))
  }

  ghost predicate Known(owners: multiset<Attempt>, amounts: seq<string>) {
    forall owner :: owner in owners ==> owner < |amounts|
  }

  predicate Honest(r: Redeem, amounts: seq<string>) {
    r.owner <= r.latest < |amounts| && (r.given.Some? ==> r.given.value == amounts[r.latest])
  }

  /** What is pending or redeemed is the amount of the attempt that was the latest one. */
  ghost predicate AmountsInv(s: State) {
    && (s.pendingAmount.Some? ==> s.amounts != [] && s.pendingAmount.value == s.amounts[Latest(s.amounts)] != "")
    && Known(s.delaying, s.amounts) && Known(s.awaiting, s.amounts)
    && (forall i :: 0 <= i < |s.redeems| ==> Honest(s.redeems[i], s.amounts))
  }

  ghost predicate Inv(s: State) {
    FlowInv(s) && AmountsInv(s)
  }

  lemma {:induction false} ApplyLast(f: Flow, queue: seq<Update>, u: Update)
    ensures ApplyAll(f, queue + [u]) == Apply(ApplyAll(f, queue), u)
  {
    assert (queue + [u])[..|queue|] == queue;
  }

  predicate Begins(e: Event) {
    e.Start? && e.amount != "" && !e.sawWithdrawing
  }

  predicate Completes(e: Event) {
    e.RedeemEffect? && e.redeemSuccess && (e.sawStep == Redemption || e.sawStep == Approval)
  }

  /** A stage seen by the cancellation effect while its transaction is neither loading nor done. */
  predicate Cancels(e: Event) {
    e.CancelEffect?
    && (|| (e.sawStep == Approval && !e.isApproving && !e.approveSuccess)
        || (e.sawStep == Redemption && !e.isRedeeming && !e.redeemSuccess))
  }

  predicate Fails(e: Event) {
    (Begins(e) && e.needs == Throws) || e.Reject? || Cancels(e)
  }

  /** The steps that end the flow. */
  predicate Ends(e: Event) {
    Completes(e) || Fails(e) || e.Reset?
  }

  predicate Approves(s: State, e: Event) {
    e.ApproveEffect? && e.approveSuccess && e.sawStep == Approval && s.pendingAmount.Some?
  }

  /** The flow after a step. */
  function NextFlow(s: State, e: Event): Flow {
    if Completes(e) then Flow(false, Completed)
    else if Fails(e) then Flow(false, Failed)
    else if e.Reset? then Flow(false, Idle)
    else if Begins(e) then Flow(true, if e.needs == Yes then Approval else Redemption)
    else if Approves(s, e) then Flow(true, Redemption)
    else Current(s)
  }

  /** What is pending after it. */
  function NextPending(s: State, e: Event): Option<string> {
    if Completes(e) || Fails(e) || e.Reset? then None
    else if Begins(e) then Some(e.amount)
    else s.pendingAmount
  }

  ghost predicate Moves(s: State, e: Event)
    requires Enabled(s, e)
  {
    Current(Step(s, e)) == NextFlow(s, e) && Step(s, e).pendingAmount == NextPending(s, e)
  }

  lemma {:induction false} StartMoves(s: State, e: Event)
    requires Begins(e)
    ensures Moves(s, e)
  {
    ApplyLast(s.rendered, s.queue, Replace(NextFlow(s, e)));
  }

  lemma {:induction false} FinishMoves(s: State, r: State, step: Stage)
    requires r.rendered == s.rendered && r.queue == s.queue + [Replace(Flow(false, step))]
    ensures Current(r) == Flow(false, step)
  {
    ApplyLast(s.rendered, s.queue, Replace(Flow(false, step)));
  }

  lemma {:induction false} EndMoves(s: State, e: Event)
    requires Enabled(s, e) && Ends(e)
    ensures Moves(s, e)
  {
    if Completes(e) {
      FinishMoves(s, Step(s, e), Completed);
    } else if Fails(e) {
      FinishMoves(s, Step(s, e), Failed);
    } else {
      FinishMoves(s, Step(s, e), Idle);
    }
  }

  lemma {:induction false} ApprovalMoves(s: State, e: Event)
    requires FlowInv(s) && Approves(s, e)
    ensures Moves(s, e)
  {
    ApplyLast(s.rendered, s.queue, SetStep(Redemption));
  }

  lemma {:induction false} OthersMove(s: State, e: Event)
    requires Enabled(s, e)
    requires !Begins(e) && !Ends(e) && !Approves(s, e)
    ensures Moves(s, e)
  {
    if e.Render? {
      assert ApplyAll(Current(s), []) == Current(s);
    } else {
      assert Step(s, e).rendered == s.rendered && Step(s, e).queue == s.queue;
    }
  }

  lemma {:induction false} StepMoves(s: State, e: Event)
    requires FlowInv(s) && Enabled(s, e)
    ensures Moves(s, e)
  {
    if Ends(e) {
      EndMoves(s, e);
    } else if Begins(e) {
      StartMoves(s, e);
    } else if Approves(s, e) {
      ApprovalMoves(s, e);
    } else {
      OthersMove(s, e);
    }
  }

  lemma RenderedAfter(s: State, e: Event)
    requires Enabled(s, e)
    ensures Step(s, e).rendered == if e.Render? then Current(s) else s.rendered
  {
  }

  lemma {:induction false} StepKeepsFlowInv(s: State, e: Event)
    requires FlowInv(s) && Enabled(s, e)
    ensures FlowInv(Step(s, e))
  {
    StepMoves(s, e);
    RenderedAfter(s, e);
  }

  lemma StartKeepsAmountsInv(s: State, e: Event)
    requires Inv(s) && e.Start? && e.amount != "" && !e.sawWithdrawing
    ensures AmountsInv(Step(s, e))
  {
    var r := Step(s, e);
    forall i | 0 <= i < |r.redeems|
      ensures Honest(r.redeems[i], r.amounts)
    {
      assert i < |s.redeems| ==> Honest(s.redeems[i], s.amounts);
    }
  }

  lemma DelayKeepsAmountsInv(s: State, e: Event)
    requires Inv(s) && Enabled(s, e) && e.DelayElapsed?
    ensures AmountsInv(Step(s, e))
  {
    var r := Step(s, e);
    forall i | 0 <= i < |r.redeems|
      ensures Honest(r.redeems[i], r.amounts)
    {
      assert i < |s.redeems| ==> Honest(s.redeems[i], s.amounts);
    }
  }

  lemma StepKeepsAmountsInv(s: State, e: Event)
    requires Inv(s) && Enabled(s, e)
    ensures AmountsInv(Step(s, e))
  {
    if e.Start? {
      if e.amount != "" && !e.sawWithdrawing {
        StartKeepsAmountsInv(s, e);
      }
    } else if e.DelayElapsed? {
      DelayKeepsAmountsInv(s, e);
    } else {
      assert Step(s, e).redeems == s.redeems && Step(s, e).amounts == s.amounts;
    }
  }

  predicate Legal(s: State, es: seq<Event>)
    decreases |es|
  {
    es == [] || (Enabled(s, es[0]) && Legal(Step(s, es[0]), es[1..]))
  }

  function Run(s: State, es: seq<Event>): State
    requires Legal(s, es)
    decreases |es|
  {
    if es == [] then s else Run(Step(s, es[0]), es[1..])
  }

  lemma {:induction false} RunKeepsInv(s: State, es: seq<Event>)
    requires Inv(s) && Legal(s, es)
    ensures Inv(Run(s, es))
    decreases |es|
  {
    if es == [] {
    } else {
      StepKeepsFlowInv(s, es[0]);
      StepKeepsAmountsInv(s, es[0]);
      RunKeepsInv(Step(s, es[0]), es[1..]);
    }
  }

  /**
   In every reachable state, with effects, renders, resets, restarts and late rejections interleaved
   in any order and reading any stale state: the flow is withdrawing exactly when its step is
   approval or redemption, and exactly when an amount is pending. What is on screen is consistent
   too, and no continuation ever redeems an amount other than that of the latest attempt.
   */
  lemma {:induction false} FlowIsConsistent(es: seq<Event>)
    requires Legal(INITIAL, es)
    ensures var s := Run(INITIAL, es);
            && (Current(s).isWithdrawing <==> Active(Current(s).step))
            && (Current(s).isWithdrawing <==> s.pendingAmount.Some?)
            && (s.rendered.isWithdrawing <==> Active(s.rendered.step))
            && (forall i :: 0 <= i < |s.redeems| ==>
                  var r := s.redeems[i];
                  r.latest < |s.amounts| && r.given in {None, Some(s.amounts[r.latest])})
  {
    RunKeepsInv(INITIAL, es);
    var s := Run(INITIAL, es);
    forall i | 0 <= i < |s.redeems|
      ensures var r := s.redeems[i];
              r.latest < |s.amounts| && r.given in {None, Some(s.amounts[r.latest])}
    {
      assert Honest(s.redeems[i], s.amounts);
    }
  }

  // ---------------------------------------------------------------- what every step does

  /**
   Every transition, in every reachable state: a redemption seen to succeed completes the flow, a throwing
   start, a rejection or a cancellation fails it, a reset idles it, each with nothing pending; any other
   start makes its amount pending and begins with the approval or, without need of one, the redemption; an
   approval moves the flow under way on to the redemption; no other step changes it.
   */
  lemma {:induction false} TransitionExactly(es: seq<Event>, e: Event)
    requires Legal(INITIAL, es) && Enabled(Run(INITIAL, es), e)
    ensures var s := Run(INITIAL, es);
            Current(Step(s, e)) == NextFlow(s, e) && Step(s, e).pendingAmount == NextPending(s, e)
  {
    RunKeepsInv(INITIAL, es);
    StepMoves(Run(INITIAL, es), e);
  }

  /**
   Redemptions are called once by a start without need of approval, for its own amount, and once at the end
   of the delay that each approval seen to succeed begins; by nothing else.
   */
  lemma RedeemsExactly(s: State, e: Event)
    requires Enabled(s, e)
    ensures Step(s, e).redeems == s.redeems
              + (if Begins(e) && e.needs == No then [Redeem(Some(e.amount), |s.amounts|, |s.amounts|)]
                 else if e.DelayElapsed? then [Redeem(s.pendingAmount, e.owner, Latest(s.amounts))]
                 else [])
    ensures Step(s, e).amounts == s.amounts + (if Begins(e) then [e.amount] else [])
  {
    assert s.redeems + [] == s.redeems && s.amounts + [] == s.amounts;
  }

  lemma DelaysExactly(s: State, e: Event)
    requires Enabled(s, e)
    ensures Step(s, e).delaying
         == if Approves(s, e) then s.delaying + multiset{Latest(s.amounts)}
            else if e.DelayElapsed? then s.delaying - multiset{e.owner}
            else s.delaying
  {
  }

  /** Calls awaited: of every start that does not throw, and of every delayed redemption, until it comes back. */
  lemma AwaitsExactly(s: State, e: Event)
    requires Enabled(s, e)
    ensures Step(s, e).awaiting
         == if Begins(e) && e.needs != Throws then s.awaiting + multiset{|s.amounts|}
            else if e.DelayElapsed? then s.awaiting + multiset{e.owner}
            else if e.Resolve? || e.Reject? then s.awaiting - multiset{e.owner}
            else s.awaiting
  {
  }

  // ---------------------------------------------------------------- whose flow, whose amount

  /**
   Exactly which steps end a flow that is under way: a reset, a start that throws, a success or a
   cancellation seen by an effect, and any rejection. Whose attempt a rejection belongs to does not
   matter.
   */
  lemma {:induction false} FlowEndsExactlyWhen(es: seq<Event>, e: Event)
    requires Legal(INITIAL, es) && Enabled(Run(INITIAL, es), e)
    requires Current(Run(INITIAL, es)).isWithdrawing
    ensures !Current(Step(Run(INITIAL, es), e)).isWithdrawing <==> Ends(e)
  {
    RunKeepsInv(INITIAL, es);
    StepMoves(Run(INITIAL, es), e);
  }

  /**
   What a redemption after the delay is given. It is no amount at all exactly when the flow has ended in
   the meantime, and the amount of its own attempt exactly when the flow is under way and the latest
   attempt is of the same amount; otherwise it is the amount of the latest attempt.
   */
  lemma {:induction false} DelayedRedemptionExactlyWhen(es: seq<Event>, owner: Attempt)
    requires Legal(INITIAL, es) && owner in Run(INITIAL, es).delaying
    ensures var s := Run(INITIAL, es);
            var given := Step(s, DelayElapsed(owner)).redeems[|s.redeems|].given;
            && owner < |s.amounts|
            && (given == None <==> !Current(s).isWithdrawing)
            && (given == Some(s.amounts[owner])
                <==> Current(s).isWithdrawing && s.amounts[owner] == s.amounts[|s.amounts| - 1])
            && (given.Some? ==> given.value == s.amounts[|s.amounts| - 1])
  {
    RunKeepsInv(INITIAL, es);
  }

  lemma {:induction false} RunJoins(s: State, es: seq<Event>, fs: seq<Event>)
    requires Legal(s, es) && Legal(Run(s, es), fs)
    ensures Legal(s, es + fs) && Run(s, es + fs) == Run(Run(s, es), fs)
    decreases |es|
  {
    if es == [] {
      assert es + fs == fs;
    } else {
      RunJoins(Step(s, es[0]), es[1..], fs);
      assert (es + fs)[1..] == es[1..] + fs;
    }
  }

  lemma {:induction false} RunOne(s: State, e: Event)
    requires Enabled(s, e)
    ensures Legal(s, [e]) && Run(s, [e]) == Step(s, e)
  {
    assert [e][1..] == [];
  }

  lemma {:induction false} RunTwo(s: State, e: Event, e': Event)
    requires Enabled(s, e) && Enabled(Step(s, e), e')
    ensures Legal(s, [e, e']) && Run(s, [e, e']) == Step(Step(s, e), e')
  {
    RunOne(Step(s, e), e');
    assert [e, e'][1..] == [e'];
  }

  /** A first attempt is on screen in its approval stage. */
  const APPROVING := State(Flow(true, Approval), [], Some("1"), multiset{}, multiset{0}, ["1"], [])
  const APPROVE := [Start("1", false, Yes), Render]

  lemma {:induction false} ApprovingIsReached()
    ensures Legal(INITIAL, APPROVE) && Run(INITIAL, APPROVE) == APPROVING
  {
    RunTwo(INITIAL, Start("1", false, Yes), Render);
    ApplyLast(INITIAL.rendered, [], Replace(Flow(true, Approval)));
  }

  /** Its transaction is not loading yet when the cancellation effect runs, and the flow ends. */
  lemma {:induction false} CancelledBeforeLoading()
    ensures Legal(INITIAL, APPROVE)
    ensures var s := Run(INITIAL, APPROVE);
            var r := Step(s, CancelEffect(s.rendered.step, false, false, false, false));
            Current(s).isWithdrawing && !Current(r).isWithdrawing && 0 in r.awaiting
  {
    ApprovingIsReached();
    ApplyLast(APPROVING.rendered, [], Replace(Flow(false, Failed)));
  }

  /** The approval goes through, and the flow is reset during the delay. */
  const ABANDONED := State(Flow(false, Idle), [], None, multiset{0}, multiset{}, ["1"], [])
  const ABANDON := APPROVE + ([Resolve(0), ApproveEffect(Approval, true)] + [Reset, Render])

  lemma {:induction false} AbandonedIsReached()
    ensures Legal(INITIAL, ABANDON) && Run(INITIAL, ABANDON) == ABANDONED
  {
    ApprovingIsReached();
    var s := APPROVING.(awaiting := multiset{}, queue := [SetStep(Redemption)], delaying := multiset{0});
    RunTwo(APPROVING, Resolve(0), ApproveEffect(Approval, true));
    assert Run(APPROVING, [Resolve(0), ApproveEffect(Approval, true)]) == s;
    RunTwo(s, Reset, Render);
    ApplyLast(s.rendered, s.queue, Replace(Flow(false, Idle)));
    RunJoins(APPROVING, [Resolve(0), ApproveEffect(Approval, true)], [Reset, Render]);
    RunJoins(INITIAL, APPROVE, [Resolve(0), ApproveEffect(Approval, true)] + [Reset, Render]);
  }

  /** The delay ends, and the redemption is called with no amount. */
  lemma {:induction false} NothingIsRedeemed()
    ensures Legal(INITIAL, ABANDON) && 0 in Run(INITIAL, ABANDON).delaying
    ensures Step(Run(INITIAL, ABANDON), DelayElapsed(0)).redeems == [Redeem(None, 0, 0)]
  {
    AbandonedIsReached();
  }

  /** A second attempt has begun before the delay of the first one ends. */
  const RESTARTED := State(Flow(false, Idle), [Replace(Flow(true, Approval))], Some("2"), multiset{0},
                           multiset{1}, ["1", "2"], [])
  const RESTART := ABANDON + [Start("2", false, Yes)]

  lemma {:induction false} RestartedIsReached()
    ensures Legal(INITIAL, RESTART) && Run(INITIAL, RESTART) == RESTARTED
  {
    AbandonedIsReached();
    RunOne(ABANDONED, Start("2", false, Yes));
    RunJoins(INITIAL, ABANDON, [Start("2", false, Yes)]);
  }

  /**
   The first attempt's continuation then redeems the second one's amount, while that one is still in its
   approval stage, and its rejection ends the second attempt.
   */
  lemma {:induction false} LateContinuationHitsNewerAttempt()
    ensures Legal(INITIAL, RESTART) && 0 in Run(INITIAL, RESTART).delaying
    ensures var s := Step(Run(INITIAL, RESTART), DelayElapsed(0));
            && s.redeems == [Redeem(Some("2"), 0, 1)] && Current(s).isWithdrawing
            && 0 in s.awaiting && !Current(Step(s, Reject(0))).isWithdrawing
  {
    RestartedIsReached();
    var s := Step(RESTARTED, DelayElapsed(0));
    ApplyLast(s.rendered, [], Replace(Flow(true, Approval)));
    ApplyLast(s.rendered, s.queue, Replace(Flow(false, Failed)));
  }

  // ---------------------------------------------------------------- the guard

  /** The approval effect without its test of `pendingAmount`. */
  function UnguardedApproveEffect(s: State, sawStep: Stage, approveSuccess: bool): State {
    if approveSuccess && sawStep == Approval then
      s.(queue := s.queue + [SetStep(Redemption)], delaying := s.delaying + multiset{Latest(s.amounts)})
    else s
  }

  /**
   The test of the ref is what keeps the flow consistent: from a consistent state, the effect without
   it leads to an inconsistent one exactly when it fires with no amount pending.
   */
  lemma GuardIsNeeded(s: State, sawStep: Stage, approveSuccess: bool)
    requires Inv(s)
    ensures !Inv(UnguardedApproveEffect(s, sawStep, approveSuccess))
       <==> approveSuccess && sawStep == Approval && s.pendingAmount.None?
  {
    ApplyLast(s.rendered, s.queue, SetStep(Redemption));
  }

  /**
   Such states occur while the closure still sees the approval stage: a rejection that comes in after
   the render of the approval stage has cleared the ref, and nothing has been rendered since.
   */
  lemma {:induction false} GuardIsReached()
    ensures Legal(INITIAL, APPROVE + [Reject(0)])
    ensures Run(INITIAL, APPROVE + [Reject(0)]).rendered.step == Approval
    ensures Run(INITIAL, APPROVE + [Reject(0)]).pendingAmount == None
  {
    ApprovingIsReached();
    RunOne(APPROVING, Reject(0));
    RunJoins(INITIAL, APPROVE, [Reject(0)]);
  }
}
