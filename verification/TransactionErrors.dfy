/**
 The ordered error classifier of src/utils/transactionErrorHandler.ts. The first class with a matching
 marker wins. Toast texts are not modelled; whether a Retry button appears is.
 */
module TransactionErrors {

  datatype ErrorType =
    | UserRejected | InsufficientFunds | InsufficientGas | GasLimitExceeded | NetworkError
    | ContractError | AllowanceError | SlippageError | NonceError | ConnectionError
    | PermanentFailure | UnknownError

  /** The `code` property of an error: absent, a number or a string. */
  datatype Code = NoCode | Number(value: int) | Name(text: string)

  /** `message` is the text the classifier looks at, after its two fallbacks. */
  datatype TxError = TxError(message: string, code: Code)

  const REJECTION: seq<string> := [
    "User rejected", "User denied", "user rejected", "denied transaction signature",
    "User cancelled", "User canceled", "MetaMask Tx Signature: User denied"]
  const FUNDS: seq<string> := [
    "insufficient funds", "Insufficient funds", "insufficient balance", "balance too low",
    "InsufficientFundsError", "not enough balance"]
  const GAS: seq<string> := [
    "gas required exceeds allowance", "out of gas", "intrinsic gas too low", "insufficient gas"]
  const GAS_LIMIT: seq<string> := ["gas limit exceeded", "execution reverted", "transaction failed"]
  const NETWORK: seq<string> := [
    "network error", "Network Error", "connection error", "timeout", "failed to fetch"]
  const CONTRACT: seq<string> := ["execution reverted", "contract call failed", "revert", "require"]
  const PERMANENT: seq<string> := [
    "transaction failed", "call exception", "call reverted", "invalid opcode",
    "contract not deployed", "method does not exist"]
  const ALLOWANCE: seq<string> := ["allowance", "approve", "insufficient allowance"]
  const NONCE: seq<string> := [
    "nonce", "transaction nonce is too low", "replacement transaction underpriced"]
  const CONNECTION: seq<string> := ["wallet not connected", "no wallet", "connect wallet"]

  predicate FoundAt(text: string, marker: string, i: nat) {
    i + |marker| <= |text| && text[i..i + |marker|] == marker
  }

  predicate Includes(text: string, marker: string) {
    exists i :: 0 <= i <= |text| && FoundAt(text, marker, i)
  }

  predicate IncludesAny(text: string, markers: seq<string>) {
    exists k :: 0 <= k < |markers| && Includes(text, markers[k])
  }

  predicate IsRejection(e: TxError) {
    IncludesAny(e.message, REJECTION) || e.code == Number(4001) || e.code == Name("ACTION_REJECTED")
  }

  predicate LacksFunds(e: TxError) {
    IncludesAny(e.message, FUNDS)
  }

  function Analyze(e: TxError): ErrorType {
    if IsRejection(e) then UserRejected
    else if LacksFunds(e) then InsufficientFunds
    else if IncludesAny(e.message, GAS) then InsufficientGas
    else if IncludesAny(e.message, GAS_LIMIT) then GasLimitExceeded
    else if IncludesAny(e.message, NETWORK) || e.code == Name("NETWORK_ERROR") then NetworkError
    else if IncludesAny(e.message, CONTRACT) then ContractError
    else if IncludesAny(e.message, PERMANENT) || e.code == Name("CALL_EXCEPTION") then PermanentFailure
    else if IncludesAny(e.message, ALLOWANCE) then AllowanceError
    else if IncludesAny(e.message, NONCE) then NonceError
    else if IncludesAny(e.message, CONNECTION) then ConnectionError
    else UnknownError
  }

  predicate Actionable(t: ErrorType) {
    t != PermanentFailure
  }

  /** Whether `handleTransactionError` puts a Retry button on its toast. */
  predicate ButtonShown(t: ErrorType, onRetry: bool) {
    Actionable(t) && onRetry && t != UserRejected
  }

  // ---------------------------------------------------------------- classes, by the texts of their markers

  ghost predicate Contains(text: string, marker: string) {
    exists before, after :: text == before + marker + after
  }

  lemma IncludesIsContains(text: string, marker: string)
    ensures Includes(text, marker) <==> Contains(text, marker)
  {
    if Includes(text, marker) {
      var i :| 0 <= i <= |text| && FoundAt(text, marker, i);
      assert text == text[..i] + marker + text[i + |marker|..];
    }
    if Contains(text, marker) {
      var before, after :| text == before + marker + after;
      assert FoundAt(text, marker, |before|);
    }
  }

  ghost predicate SaysRejected(e: TxError) {
    || Contains(e.message, "User rejected")
    || Contains(e.message, "User denied")
    || Contains(e.message, "user rejected")
    || Contains(e.message, "denied transaction signature")
    || Contains(e.message, "User cancelled")
    || Contains(e.message, "User canceled")
    || Contains(e.message, "MetaMask Tx Signature: User denied")
    || e.code == Number(4001)
    || e.code == Name("ACTION_REJECTED")
  }

  ghost predicate SaysFunds(e: TxError) {
    || Contains(e.message, "insufficient funds")
    || Contains(e.message, "Insufficient funds")
    || Contains(e.message, "insufficient balance")
    || Contains(e.message, "balance too low")
    || Contains(e.message, "InsufficientFundsError")
    || Contains(e.message, "not enough balance")
  }

  ghost predicate SaysGas(e: TxError) {
    || Contains(e.message, "gas required exceeds allowance")
    || Contains(e.message, "out of gas")
    || Contains(e.message, "intrinsic gas too low")
    || Contains(e.message, "insufficient gas")
  }

  ghost predicate SaysGasLimit(e: TxError) {
    || Contains(e.message, "gas limit exceeded")
    || Contains(e.message, "execution reverted")
    || Contains(e.message, "transaction failed")
  }

  ghost predicate SaysNetwork(e: TxError) {
    || Contains(e.message, "network error")
    || Contains(e.message, "Network Error")
    || Contains(e.message, "connection error")
    || Contains(e.message, "timeout")
    || Contains(e.message, "failed to fetch")
    || e.code == Name("NETWORK_ERROR")
  }

  ghost predicate SaysContract(e: TxError) {
    || Contains(e.message, "execution reverted")
    || Contains(e.message, "contract call failed")
    || Contains(e.message, "revert")
    || Contains(e.message, "require")
  }

  ghost predicate SaysPermanent(e: TxError) {
    || Contains(e.message, "transaction failed")
    || Contains(e.message, "call exception")
    || Contains(e.message, "call reverted")
    || Contains(e.message, "invalid opcode")
    || Contains(e.message, "contract not deployed")
    || Contains(e.message, "method does not exist")
    || e.code == Name("CALL_EXCEPTION")
  }

  ghost predicate SaysAllowance(e: TxError) {
    || Contains(e.message, "allowance")
    || Contains(e.message, "approve")
    || Contains(e.message, "insufficient allowance")
  }

  ghost predicate SaysNonce(e: TxError) {
    || Contains(e.message, "nonce")
    || Contains(e.message, "transaction nonce is too low")
    || Contains(e.message, "replacement transaction underpriced")
  }

  ghost predicate SaysConnection(e: TxError) {
    || Contains(e.message, "wallet not connected")
    || Contains(e.message, "no wallet")
    || Contains(e.message, "connect wallet")
  }

  ghost predicate NoneUpToGasLimit(e: TxError) {
    !SaysRejected(e) && !SaysFunds(e) && !SaysGas(e) && !SaysGasLimit(e)
  }

  ghost predicate NoneUpToContract(e: TxError) {
    NoneUpToGasLimit(e) && !SaysNetwork(e) && !SaysContract(e)
  }

  ghost predicate NoneUpToAllowance(e: TxError) {
    NoneUpToContract(e) && !SaysPermanent(e) && !SaysAllowance(e)
  }

  lemma SaysRejectedExactly(e: TxError)
    ensures SaysRejected(e)
       <==> IncludesAny(e.message, REJECTION) || e.code == Number(4001) || e.code == Name("ACTION_REJECTED")
  {
    forall k | 0 <= k < |REJECTION|
      ensures Includes(e.message, REJECTION[k]) <==> Contains(e.message, REJECTION[k])
    {
      IncludesIsContains(e.message, REJECTION[k]);
    }
    assert |REJECTION| == 7;
    assert Contains(e.message, "User rejected") <==> Includes(e.message, REJECTION[0]);
    assert Contains(e.message, "User denied") <==> Includes(e.message, REJECTION[1]);
    assert Contains(e.message, "user rejected") <==> Includes(e.message, REJECTION[2]);
    assert Contains(e.message, "denied transaction signature") <==> Includes(e.message, REJECTION[3]);
    assert Contains(e.message, "User cancelled") <==> Includes(e.message, REJECTION[4]);
    assert Contains(e.message, "User canceled") <==> Includes(e.message, REJECTION[5]);
    assert Contains(e.message, "MetaMask Tx Signature: User denied") <==> Includes(e.message, REJECTION[6]);
  }

  lemma SaysFundsExactly(e: TxError)
    ensures SaysFunds(e) <==> IncludesAny(e.message, FUNDS)
  {
    forall k | 0 <= k < |FUNDS|
      ensures Includes(e.message, FUNDS[k]) <==> Contains(e.message, FUNDS[k])
    {
      IncludesIsContains(e.message, FUNDS[k]);
    }
    assert |FUNDS| == 6;
    assert Contains(e.message, "insufficient funds") <==> Includes(e.message, FUNDS[0]);
    assert Contains(e.message, "Insufficient funds") <==> Includes(e.message, FUNDS[1]);
    assert Contains(e.message, "insufficient balance") <==> Includes(e.message, FUNDS[2]);
    assert Contains(e.message, "balance too low") <==> Includes(e.message, FUNDS[3]);
    assert Contains(e.message, "InsufficientFundsError") <==> Includes(e.message, FUNDS[4]);
    assert Contains(e.message, "not enough balance") <==> Includes(e.message, FUNDS[5]);
  }

  lemma SaysGasExactly(e: TxError)
    ensures SaysGas(e) <==> IncludesAny(e.message, GAS)
  {
    forall k | 0 <= k < |GAS|
      ensures Includes(e.message, GAS[k]) <==> Contains(e.message, GAS[k])
    {
      IncludesIsContains(e.message, GAS[k]);
    }
    assert |GAS| == 4;
    assert Contains(e.message, "gas required exceeds allowance") <==> Includes(e.message, GAS[0]);
    assert Contains(e.message, "out of gas") <==> Includes(e.message, GAS[1]);
    assert Contains(e.message, "intrinsic gas too low") <==> Includes(e.message, GAS[2]);
    assert Contains(e.message, "insufficient gas") <==> Includes(e.message, GAS[3]);
  }

  lemma SaysGasLimitExactly(e: TxError)
    ensures SaysGasLimit(e) <==> IncludesAny(e.message, GAS_LIMIT)
  {
    forall k | 0 <= k < |GAS_LIMIT|
      ensures Includes(e.message, GAS_LIMIT[k]) <==> Contains(e.message, GAS_LIMIT[k])
    {
      IncludesIsContains(e.message, GAS_LIMIT[k]);
    }
    assert |GAS_LIMIT| == 3;
    assert Contains(e.message, "gas limit exceeded") <==> Includes(e.message, GAS_LIMIT[0]);
    assert Contains(e.message, "execution reverted") <==> Includes(e.message, GAS_LIMIT[1]);
    assert Contains(e.message, "transaction failed") <==> Includes(e.message, GAS_LIMIT[2]);
  }

  lemma SaysNetworkExactly(e: TxError)
    ensures SaysNetwork(e) <==> IncludesAny(e.message, NETWORK) || e.code == Name("NETWORK_ERROR")
  {
    forall k | 0 <= k < |NETWORK|
      ensures Includes(e.message, NETWORK[k]) <==> Contains(e.message, NETWORK[k])
    {
      IncludesIsContains(e.message, NETWORK[k]);
    }
    assert |NETWORK| == 5;
    assert Contains(e.message, "network error") <==> Includes(e.message, NETWORK[0]);
    assert Contains(e.message, "Network Error") <==> Includes(e.message, NETWORK[1]);
    assert Contains(e.message, "connection error") <==> Includes(e.message, NETWORK[2]);
    assert Contains(e.message, "timeout") <==> Includes(e.message, NETWORK[3]);
    assert Contains(e.message, "failed to fetch") <==> Includes(e.message, NETWORK[4]);
  }

  lemma SaysContractExactly(e: TxError)
    ensures SaysContract(e) <==> IncludesAny(e.message, CONTRACT)
  {
    forall k | 0 <= k < |CONTRACT|
      ensures Includes(e.message, CONTRACT[k]) <==> Contains(e.message, CONTRACT[k])
    {
      IncludesIsContains(e.message, CONTRACT[k]);
    }
    assert |CONTRACT| == 4;
    assert Contains(e.message, "execution reverted") <==> Includes(e.message, CONTRACT[0]);
    assert Contains(e.message, "contract call failed") <==> Includes(e.message, CONTRACT[1]);
    assert Contains(e.message, "revert") <==> Includes(e.message, CONTRACT[2]);
    assert Contains(e.message, "require") <==> Includes(e.message, CONTRACT[3]);
  }

  lemma SaysPermanentExactly(e: TxError)
    ensures SaysPermanent(e) <==> IncludesAny(e.message, PERMANENT) || e.code == Name("CALL_EXCEPTION")
  {
    forall k | 0 <= k < |PERMANENT|
      ensures Includes(e.message, PERMANENT[k]) <==> Contains(e.message, PERMANENT[k])
    {
      IncludesIsContains(e.message, PERMANENT[k]);
    }
    assert |PERMANENT| == 6;
    assert Contains(e.message, "transaction failed") <==> Includes(e.message, PERMANENT[0]);
    assert Contains(e.message, "call exception") <==> Includes(e.message, PERMANENT[1]);
    assert Contains(e.message, "call reverted") <==> Includes(e.message, PERMANENT[2]);
    assert Contains(e.message, "invalid opcode") <==> Includes(e.message, PERMANENT[3]);
    assert Contains(e.message, "contract not deployed") <==> Includes(e.message, PERMANENT[4]);
    assert Contains(e.message, "method does not exist") <==> Includes(e.message, PERMANENT[5]);
  }

  lemma SaysAllowanceExactly(e: TxError)
    ensures SaysAllowance(e) <==> IncludesAny(e.message, ALLOWANCE)
  {
    forall k | 0 <= k < |ALLOWANCE|
      ensures Includes(e.message, ALLOWANCE[k]) <==> Contains(e.message, ALLOWANCE[k])
    {
      IncludesIsContains(e.message, ALLOWANCE[k]);
    }
    assert |ALLOWANCE| == 3;
    assert Contains(e.message, "allowance") <==> Includes(e.message, ALLOWANCE[0]);
    assert Contains(e.message, "approve") <==> Includes(e.message, ALLOWANCE[1]);
    assert Contains(e.message, "insufficient allowance") <==> Includes(e.message, ALLOWANCE[2]);
  }

  lemma SaysNonceExactly(e: TxError)
    ensures SaysNonce(e) <==> IncludesAny(e.message, NONCE)
  {
    forall k | 0 <= k < |NONCE|
      ensures Includes(e.message, NONCE[k]) <==> Contains(e.message, NONCE[k])
    {
      IncludesIsContains(e.message, NONCE[k]);
    }
    assert |NONCE| == 3;
    assert Contains(e.message, "nonce") <==> Includes(e.message, NONCE[0]);
    assert Contains(e.message, "transaction nonce is too low") <==> Includes(e.message, NONCE[1]);
    assert Contains(e.message, "replacement transaction underpriced") <==> Includes(e.message, NONCE[2]);
  }

  lemma SaysConnectionExactly(e: TxError)
    ensures SaysConnection(e) <==> IncludesAny(e.message, CONNECTION)
  {
    forall k | 0 <= k < |CONNECTION|
      ensures Includes(e.message, CONNECTION[k]) <==> Contains(e.message, CONNECTION[k])
    {
      IncludesIsContains(e.message, CONNECTION[k]);
    }
    assert |CONNECTION| == 3;
    assert Contains(e.message, "wallet not connected") <==> Includes(e.message, CONNECTION[0]);
    assert Contains(e.message, "no wallet") <==> Includes(e.message, CONNECTION[1]);
    assert Contains(e.message, "connect wallet") <==> Includes(e.message, CONNECTION[2]);
  }

  /**
   Exactly when an error gets each class: the first one, in this order, of which a marker or the code is
   found. No error is a slippage error.
   */
  lemma ClassExactly(e: TxError)
    ensures Analyze(e) == UserRejected <==> SaysRejected(e)
    ensures Analyze(e) == InsufficientFunds <==> !SaysRejected(e) && SaysFunds(e)
    ensures Analyze(e) == InsufficientGas <==> !SaysRejected(e) && !SaysFunds(e) && SaysGas(e)
    ensures Analyze(e) == GasLimitExceeded <==> !SaysRejected(e) && !SaysFunds(e) && !SaysGas(e) && SaysGasLimit(e)
    ensures Analyze(e) == NetworkError <==> NoneUpToGasLimit(e) && SaysNetwork(e)
    ensures Analyze(e) == ContractError <==> NoneUpToGasLimit(e) && !SaysNetwork(e) && SaysContract(e)
    ensures Analyze(e) == PermanentFailure <==> NoneUpToContract(e) && SaysPermanent(e)
    ensures Analyze(e) == AllowanceError <==> NoneUpToContract(e) && !SaysPermanent(e) && SaysAllowance(e)
    ensures Analyze(e) == NonceError <==> NoneUpToAllowance(e) && SaysNonce(e)
    ensures Analyze(e) == ConnectionError <==> NoneUpToAllowance(e) && !SaysNonce(e) && SaysConnection(e)
    ensures Analyze(e) == UnknownError <==> NoneUpToAllowance(e) && !SaysNonce(e) && !SaysConnection(e)
    ensures Analyze(e) != SlippageError
  {
    SaysRejectedExactly(e);
    SaysFundsExactly(e);
    SaysGasExactly(e);
    SaysGasLimitExactly(e);
    SaysNetworkExactly(e);
    SaysContractExactly(e);
    SaysPermanentExactly(e);
    SaysAllowanceExactly(e);
    SaysNonceExactly(e);
    SaysConnectionExactly(e);
  }

  // ---------------------------------------------------------------- shadowed markers

  lemma IncludesTransitive(text: string, marker: string, inner: string)
    requires Includes(text, marker) && Includes(marker, inner)
    ensures Includes(text, inner)
  {
    var i :| 0 <= i <= |text| && FoundAt(text, marker, i);
    var j :| 0 <= j <= |marker| && FoundAt(marker, inner, j);
    forall k | 0 <= k < |inner|
      ensures text[i + j + k] == inner[k]
    {
      assert marker[j + k] == marker[j..j + |inner|][k];
      assert text[i + (j + k)] == text[i..i + |marker|][j + k];
    }
    assert text[i + j..i + j + |inner|] == inner;
    assert FoundAt(text, inner, i + j);
  }

  /** The permanent-failure markers that no earlier class takes. */
  const LIVE_PERMANENT: seq<string> := [
    "call exception", "invalid opcode", "contract not deployed", "method does not exist"]

  /**
   Two of the markers listed as permanent can never make an error permanent: an earlier class takes
   every message with "transaction failed" or "call reverted", and those classes are actionable. An
   error is permanent exactly when no earlier class matches and one of the other four markers, or the
   code, does.
   */
  lemma PermanentExactlyWhen(e: TxError)
    ensures Analyze(e) == PermanentFailure <==>
              && !IsRejection(e) && !LacksFunds(e)
              && !IncludesAny(e.message, GAS) && !IncludesAny(e.message, GAS_LIMIT)
              && !IncludesAny(e.message, NETWORK) && e.code != Name("NETWORK_ERROR")
              && !IncludesAny(e.message, CONTRACT)
              && (IncludesAny(e.message, LIVE_PERMANENT) || e.code == Name("CALL_EXCEPTION"))
    ensures Includes(e.message, "transaction failed") || Includes(e.message, "call reverted") ==>
              Analyze(e) != PermanentFailure && (!IsRejection(e) ==> ButtonShown(Analyze(e), true))
  {
    var m := e.message;
    if Includes(m, "transaction failed") {
      assert Includes(m, GAS_LIMIT[2]);
    }
    if Includes(m, "call reverted") {
      assert FoundAt("call reverted", "revert", 5);
      IncludesTransitive(m, "call reverted", "revert");
      assert Includes(m, CONTRACT[2]);
    }
    if IncludesAny(m, LIVE_PERMANENT) {
      var k :| 0 <= k < |LIVE_PERMANENT| && Includes(m, LIVE_PERMANENT[k]);
      assert Includes(m, PERMANENT[if k == 0 then 1 else k + 2]);
    }
    if IncludesAny(m, PERMANENT) {
      var k :| 0 <= k < |PERMANENT| && Includes(m, PERMANENT[k]);
      if k == 1 || k >= 3 {
        assert Includes(m, LIVE_PERMANENT[if k == 1 then 0 else k - 2]);
      }
    }
  }
}
