/**
 Bounded retry around the classifier, as src/hooks/useStakeBasketTransactions.ts runs it for deposits,
 redemptions and approvals. The three functions share one protocol and differ in the counter they use.
 */
module TransactionRetry {
  import opened TransactionErrors

  const MAX_RETRIES := 2

  datatype Operation = DepositCore | RedeemBasket | ApproveBasketTokens

  /** One call: the transaction is handed to the wallet, or something throws before that. */
  datatype Submission = Submitted | Threw(error: TxError)

  datatype Attempt = Attempt(op: Operation, result: Submission)

  /** What the user sees; a final failure is re-thrown unless the user caused it. */
  datatype Shown = Success | RetryOffered | FinalFailure(rethrown: bool)

  datatype Counters = Counters(depositCore: int, redeemBasket: int, approveBasketTokens: int) {
    function Get(op: Operation): int {
      match op
      case DepositCore => depositCore
      case RedeemBasket => redeemBasket
      case ApproveBasketTokens => approveBasketTokens
    }

    function Set(op: Operation, n: int): Counters {
      match op
      case DepositCore => this.(depositCore := n)
      case RedeemBasket => this.(redeemBasket := n)
      case ApproveBasketTokens => this.(approveBasketTokens := n)
    }
  }

  predicate IsRetryable(t: ErrorType) {
    t in {NetworkError, NonceError, InsufficientGas}
  }

  predicate IsNonRetryable(t: ErrorType) {
    t in {UserRejected, PermanentFailure, ContractError, InsufficientFunds, AllowanceError}
  }

  predicate ShouldRetry(t: ErrorType, attempts: int) {
    IsRetryable(t) && !IsNonRetryable(t) && attempts < MAX_RETRIES
  }

  function ShownFor(c: Counters, a: Attempt): Shown {
    if a.result.Submitted? then Success
    else
      var t := Analyze(a.result.error);
      if ButtonShown(t, ShouldRetry(t, c.Get(a.op))) then RetryOffered
      else FinalFailure(t != UserRejected)
  }

  function Update(c: Counters, a: Attempt): Counters {
    if a.result.Threw? && ShouldRetry(Analyze(a.result.error), c.Get(a.op)) then
      c.Set(a.op, c.Get(a.op) + 1)
    else
      c.Set(a.op, 0)
  }

  // ---------------------------------------------------------------- the program

  /** The hook's `retryAttempts` ref. */
  class Hook {
    var depositCore: int
    var redeemBasket: int
    var approveBasketTokens: int

    function Current(): Counters
      reads this
    {
      Counters(depositCore, redeemBasket, approveBasketTokens)
    }

    constructor ()
      ensures Current() == Counters(0, 0, 0)
    {
      depositCore, redeemBasket, approveBasketTokens := 0, 0, 0;
    }

    method SetAttempts(op: Operation, n: int)
      modifies this
      ensures Current() == old(Current()).Set(op, n)
    {
      match op {
        case DepositCore => depositCore := n;
        case RedeemBasket => redeemBasket := n;
        case ApproveBasketTokens => approveBasketTokens := n;
      }
    }

    /** `depositCore`, `redeemBasket` or `approveBasketTokens`. */
    method Run(op: Operation, result: Submission) returns (shown: Shown)
      modifies this
      ensures Current() == Update(old(Current()), Attempt(op, result))
      ensures shown == ShownFor(old(Current()), Attempt(op, result))
    {
      match result {
        case Submitted =>
          SetAttempts(op, 0);
          shown := Success;
        case Threw(error) =>
          var analyzed := Analyze(error);
          var attempts := Current().Get(op);
          var shouldRetry := IsRetryable(analyzed) && !IsNonRetryable(analyzed) && attempts < MAX_RETRIES;
          var button := ButtonShown(analyzed, shouldRetry);
          if shouldRetry {
            SetAttempts(op, attempts + 1);
          } else {
            SetAttempts(op, 0);
          }
          shown := if button then RetryOffered else FinalFailure(analyzed != UserRejected);
      }
    }
  }

  // ---------------------------------------------------------------- runs

  function After(es: seq<Attempt>): Counters {
    if es == [] then Counters(0, 0, 0) else Update(After(es[..|es| - 1]), es[|es| - 1])
  }

  function ShownAt(es: seq<Attempt>, i: nat): Shown
    requires i < |es|
  {
    ShownFor(After(es[..i]), es[i])
  }

  /** The Retry offers for `op` since its last success or final failure, read off the toasts. */
  function OffersSinceReset(es: seq<Attempt>, op: Operation): nat {
    if es == [] then 0
    else
      var n := |es| - 1;
      if es[n].op != op then OffersSinceReset(es[..n], op)
      else if ShownAt(es, n) == RetryOffered then OffersSinceReset(es[..n], op) + 1
      else 0
  }

  /**
   In any run of any mix of the three operations, each counter says how many Retry offers the user
   has had since the operation last succeeded or finally failed, and that is never more than two.
   */
  lemma {:induction false} AtMostTwoOffers(es: seq<Attempt>, op: Operation)
    ensures After(es).Get(op) == OffersSinceReset(es, op)
    ensures OffersSinceReset(es, op) <= 2
  {
    if es == [] {
    } else {
      AtMostTwoOffers(es[..|es| - 1], op);
    }
  }

  /** Gas, network and nonce errors may pass; each only if no earlier class takes the error. */
  ghost predicate Passing(e: TxError) {
    && !SaysRejected(e) && !SaysFunds(e)
    && (|| SaysGas(e)
        || (!SaysGasLimit(e) && SaysNetwork(e))
        || (NoneUpToAllowance(e) && SaysNonce(e)))
  }

  lemma RetryableExactly(e: TxError)
    ensures IsRetryable(Analyze(e)) && !IsNonRetryable(Analyze(e)) <==> Passing(e)
    ensures ButtonShown(Analyze(e), true) <== Passing(e)
  {
    ClassExactly(e);
  }

  /**
   Exactly what the user sees, from the markers of the error and the history: the Retry button if the
   error may pass and fewer than two offers were made since the operation last succeeded or finally
   failed; otherwise a failure, which is re-thrown unless the user said no.
   */
  lemma {:induction false} ShownExactlyWhen(es: seq<Attempt>, i: nat)
    requires i < |es|
    ensures ShownAt(es, i) == Success <==> es[i].result.Submitted?
    ensures es[i].result.Threw? ==>
              var error := es[i].result.error;
              if Passing(error) && OffersSinceReset(es[..i], es[i].op) < 2 then ShownAt(es, i) == RetryOffered
              else ShownAt(es, i) == FinalFailure(!SaysRejected(error))
  {
    AtMostTwoOffers(es[..i], es[i].op);
    if es[i].result.Threw? {
      RetryableExactly(es[i].result.error);
      ClassExactly(es[i].result.error);
    }
  }

  /** The number of attempts of `op`. */
  function AttemptsOf(es: seq<Attempt>, op: Operation): nat {
    if es == [] then 0
    else AttemptsOf(es[..|es| - 1], op) + if es[|es| - 1].op == op then 1 else 0
  }

  lemma {:induction false} ShownInPrefix(all: seq<Attempt>, n: nat, i: nat)
    requires i < n <= |all|
    ensures ShownAt(all[..n], i) == ShownAt(all, i)
  {
    assert all[..n][..i] == all[..i];
  }

  lemma {:induction false} OneMoreAttempt(es: seq<Attempt>, fs: seq<Attempt>, op: Operation)
    requires fs != [] && (fs[|fs| - 1].op == op ==> ShownAt(es + fs, |es| + |fs| - 1) == RetryOffered)
    ensures OffersSinceReset(es + fs, op)
         == OffersSinceReset(es + fs[..|fs| - 1], op) + if fs[|fs| - 1].op == op then 1 else 0
  {
    assert (es + fs)[..|es| + |fs| - 1] == es + fs[..|fs| - 1];
  }

  lemma {:induction false} OnlyOffersAddUp(es: seq<Attempt>, fs: seq<Attempt>, op: Operation)
    requires forall i :: 0 <= i < |fs| && fs[i].op == op ==> ShownAt(es + fs, |es| + i) == RetryOffered
    ensures OffersSinceReset(es + fs, op) == OffersSinceReset(es, op) + AttemptsOf(fs, op)
  {
    if fs == [] {
      assert es + fs == es;
    } else {
      var n := |fs| - 1;
      assert (es + fs)[..|es| + n] == es + fs[..n];
      forall i | 0 <= i < n && fs[i].op == op
        ensures ShownAt(es + fs[..n], |es| + i) == RetryOffered
      {
        ShownInPrefix(es + fs, |es| + n, |es| + i);
      }
      OnlyOffersAddUp(es, fs[..n], op);
      OneMoreAttempt(es, fs, op);
    }
  }

  /**
   However the run began and whatever else goes on, three failed attempts of one operation include a
   final failure: always pressing Retry comes to an end.
   */
  lemma {:induction false} PersistentFailureEnds(es: seq<Attempt>, fs: seq<Attempt>, op: Operation)
    requires forall i :: 0 <= i < |fs| && fs[i].op == op ==> fs[i].result.Threw?
    requires AttemptsOf(fs, op) >= 3
    ensures exists i :: 0 <= i < |fs| && fs[i].op == op && ShownAt(es + fs, |es| + i).FinalFailure?
  {
    if forall i :: 0 <= i < |fs| && fs[i].op == op ==> !ShownAt(es + fs, |es| + i).FinalFailure? {
      forall i | 0 <= i < |fs| && fs[i].op == op
        ensures ShownAt(es + fs, |es| + i) == RetryOffered
      {
        assert (es + fs)[|es| + i] == fs[i];
        assert !ShownAt(es + fs, |es| + i).FinalFailure?;
      }
      OnlyOffersAddUp(es, fs, op);
      AtMostTwoOffers(es + fs, op);
      assert false;
    }
  }

  /** The attempts of `op` alone. */
  function Of(es: seq<Attempt>, op: Operation): seq<Attempt> {
    if es == [] then []
    else
      var n := |es| - 1;
      if es[n].op == op then Of(es[..n], op) + [es[n]] else Of(es[..n], op)
  }

  function ShownFrom(es: seq<Attempt>, op: Operation): seq<Shown> {
    if es == [] then []
    else
      var n := |es| - 1;
      if es[n].op == op then ShownFrom(es[..n], op) + [ShownAt(es, n)] else ShownFrom(es[..n], op)
  }

  lemma {:induction false} SameOperation(es: seq<Attempt>, own: seq<Attempt>, a: Attempt)
    requires After(es).Get(a.op) == After(own).Get(a.op)
    ensures ShownAt(es + [a], |es|) == ShownAt(own + [a], |own|)
    ensures After(es + [a]).Get(a.op) == After(own + [a]).Get(a.op)
    ensures ShownFrom(own + [a], a.op) == ShownFrom(own, a.op) + [ShownAt(own + [a], |own|)]
  {
    assert (es + [a])[..|es|] == es && (own + [a])[..|own|] == own;
  }

  lemma OtherOperation(c: Counters, a: Attempt, op: Operation)
    requires a.op != op
    ensures Update(c, a).Get(op) == c.Get(op)
  {
  }

  /** The operations do not disturb each other's retries. */
  lemma {:induction false} OperationsAreIsolated(es: seq<Attempt>, op: Operation)
    ensures ShownFrom(es, op) == ShownFrom(Of(es, op), op)
    ensures After(es).Get(op) == After(Of(es, op)).Get(op)
  {
    if es == [] {
    } else {
      var n := |es| - 1;
      OperationsAreIsolated(es[..n], op);
      if es[n].op == op {
        SameOperation(es[..n], Of(es[..n], op), es[n]);
        assert es == es[..n] + [es[n]];
      } else {
        OtherOperation(After(es[..n]), es[n], op);
      }
    }
  }
}
