/**
 The local-chain branch of `fetchTransactions` in src/hooks/useTransactionHistory.ts: fetch the latest
 block and the twenty before it, keep the user's transactions to the two contracts, cut the list to
 ten, and only then sort the list that was cut from.
 */
module TransactionHistory {
  import opened Text
  import opened Wrappers

  const BLOCKS_BACK := 20
  const LIMIT := 10

  /** A transaction as the node reports it; an absent field is None. */
  datatype RawTx = RawTx(sender: Option<string>, to: Option<string>, hash: string, input: string, value: string)

  datatype Block = Block(number: nat, timestamp: nat, transactions: seq<RawTx>)

  /** What the hook stores; the method name and type are table lookups on `input`. */
  datatype Transaction = Transaction(hash: string, input: string, timestamp: int, value: string, blockNumber: nat)

  datatype Filter = Filter(address: string, stakeBasket: string, basketToken: string)

  predicate SameAddress(a: Option<string>, b: string) {
    a.Some? && Lower(a.value) == Lower(b)
  }

  predicate IsRelevant(tx: RawTx, f: Filter) {
    && SameAddress(tx.sender, f.address)
    && (SameAddress(tx.to, f.stakeBasket) || SameAddress(tx.to, f.basketToken))
    && tx.hash != ""
  }

  function Record(tx: RawTx, b: Block): Transaction {
    Transaction(tx.hash, tx.input, b.timestamp * 1000, if tx.value == "" then "0" else tx.value, b.number)
  }

  // ---------------------------------------------------------------- specification

  /** The relevant transactions among the first `n` of a block, in order. */
  function RelevantIn(b: Block, n: nat, f: Filter): seq<Transaction>
    requires n <= |b.transactions|
  {
    if n == 0 then []
    else
      RelevantIn(b, n - 1, f)
      + if IsRelevant(b.transactions[n - 1], f) then [Record(b.transactions[n - 1], b)] else []
  }

  function RelevantOf(response: Option<Block>, f: Filter): seq<Transaction> {
    if response.None? then [] else RelevantIn(response.value, |response.value.transactions|, f)
  }

  /** All relevant transactions of a list of block responses. */
  function Matches(responses: seq<Option<Block>>, f: Filter): seq<Transaction> {
    if responses == [] then []
    else Matches(responses[..|responses| - 1], f) + RelevantOf(responses[|responses| - 1], f)
  }

  /** The responses for blocks `latest`, `latest - 1`, ..., `start`. */
  function Responses(chain: nat -> Option<Block>, latest: nat, start: nat): seq<Option<Block>>
    requires start <= latest + 1
  {
    seq(latest + 1 - start, i requires 0 <= i < latest + 1 - start => chain(latest - i))
  }

  function FirstBlock(latest: nat): nat {
    if latest < BLOCKS_BACK then 0 else latest - BLOCKS_BACK
  }

  /** The relevant transactions of the latest twenty-one blocks, latest block first. */
  function AllMatches(chain: nat -> Option<Block>, latest: nat, f: Filter): seq<Transaction> {
    Matches(Responses(chain, latest, FirstBlock(latest)), f)
  }

  function Take(s: seq<Transaction>, n: nat): seq<Transaction> {
    if |s| <= n then s else s[..n]
  }

  // ---------------------------------------------------------------- the program

  /** The inner loop, over the transactions of one response. */
  method CollectFrom(response: Option<Block>, f: Filter) returns (txs: seq<Transaction>)
    ensures txs == RelevantOf(response, f)
  {
    txs := [];
    if response.Some? {
      var block := response.value;
      var n := 0;
      while n < |block.transactions|
        invariant 0 <= n <= |block.transactions|
        invariant txs == RelevantIn(block, n, f)
      {
        var tx := block.transactions[n];
        if IsRelevant(tx, f) {
          txs := txs + [Record(tx, block)];
        }
        n := n + 1;
      }
    }
  }

  method FetchLocal(chain: nat -> Option<Block>, latest: nat, f: Filter) returns (finalTxs: seq<Transaction>)
    ensures finalTxs == Take(AllMatches(chain, latest, f), LIMIT)
  {
    var startBlock := if latest < 20 then 0 else latest - 20;
    var blockResults: seq<Option<Block>> := [];
    var i: int := latest;
    while i >= startBlock
      invariant startBlock - 1 <= i <= latest
      invariant blockResults == Responses(chain, latest, i + 1)
    {
      blockResults := blockResults + [chain(i)];
      i := i - 1;
    }

    var localTxs: seq<Transaction> := [];
    var k := 0;
    while k < |blockResults|
      invariant 0 <= k <= |blockResults|
      invariant localTxs == Matches(blockResults[..k], f)
    {
      var found := CollectFrom(blockResults[k], f);
      localTxs := localTxs + found;
      assert blockResults[..k + 1][..k] == blockResults[..k];
      k := k + 1;
    }
    assert blockResults[..k] == blockResults;
    finalTxs := if |localTxs| <= 10 then localTxs else localTxs[..10];
  }

  // ---------------------------------------------------------------- what is selected

  /** The index-th transaction of the block-th response. */
  datatype Place = Place(block: nat, index: nat)

  predicate Before(p: Place, q: Place) {
    p.block < q.block || (p.block == q.block && p.index < q.index)
  }

  predicate InResponses(responses: seq<Option<Block>>, p: Place) {
    && p.block < |responses| && responses[p.block].Some?
    && p.index < |responses[p.block].value.transactions|
  }

  function TxAt(responses: seq<Option<Block>>, p: Place): RawTx
    requires InResponses(responses, p)
  {
    responses[p.block].value.transactions[p.index]
  }

  ghost predicate IsAddress(given: Option<string>, address: string) {
    given.Some? && SameUpToCase(given.value, address)
  }

  /** A transaction with a hash, from the user to one of the two contracts. */
  ghost predicate OfUser(tx: RawTx, f: Filter) {
    && IsAddress(tx.sender, f.address)
    && (IsAddress(tx.to, f.stakeBasket) || IsAddress(tx.to, f.basketToken))
    && |tx.hash| > 0
  }

  /** What is kept of it; times are in seconds there and in milliseconds here. */
  ghost predicate Records(t: Transaction, tx: RawTx, b: Block) {
    && t.hash == tx.hash && t.input == tx.input && t.blockNumber == b.number
    && t.timestamp == 1000 * b.timestamp
    && (tx.value != "" ==> t.value == tx.value) && (tx.value == "" ==> t.value == "0")
  }

  lemma RelevantExactly(tx: RawTx, f: Filter)
    ensures IsRelevant(tx, f) <==> OfUser(tx, f)
  {
    if tx.sender.Some? {
      LowerIdentifies(tx.sender.value, f.address);
    }
    if tx.to.Some? {
      LowerIdentifies(tx.to.value, f.stakeBasket);
      LowerIdentifies(tx.to.value, f.basketToken);
    }
  }

  ghost predicate Selected(responses: seq<Option<Block>>, f: Filter, p: Place) {
    InResponses(responses, p) && OfUser(TxAt(responses, p), f)
  }

  /** `txs` records what is at `places`: every selected place, once, in the order of fetching. */
  ghost predicate Lists(places: seq<Place>, responses: seq<Option<Block>>, f: Filter, txs: seq<Transaction>) {
    && |txs| == |places|
    && (forall i :: 0 <= i < |places| ==>
          && Selected(responses, f, places[i])
          && Records(txs[i], TxAt(responses, places[i]), responses[places[i].block].value))
    && (forall i, j :: 0 <= i < j < |places| ==> Before(places[i], places[j]))
    && (forall p :: Selected(responses, f, p) ==> p in places)
  }

  function PlacesIn(b: Block, block: nat, n: nat, f: Filter): seq<Place>
    requires n <= |b.transactions|
  {
    if n == 0 then []
    else
      PlacesIn(b, block, n - 1, f) + if IsRelevant(b.transactions[n - 1], f) then [Place(block, n - 1)] else []
  }

  function Places(responses: seq<Option<Block>>, f: Filter): seq<Place> {
    if responses == [] then []
    else
      var n := |responses| - 1;
      Places(responses[..n], f)
      + if responses[n].None? then [] else PlacesIn(responses[n].value, n, |responses[n].value.transactions|, f)
  }

  /** The same for the first `n` transactions of one block. */
  ghost predicate ListsIn(places: seq<Place>, b: Block, block: nat, n: nat, f: Filter, txs: seq<Transaction>)
    requires n <= |b.transactions|
  {
    && |txs| == |places|
    && (forall i :: 0 <= i < |places| ==>
          && places[i].block == block && places[i].index < n
          && OfUser(b.transactions[places[i].index], f)
          && Records(txs[i], b.transactions[places[i].index], b))
    && (forall i, j :: 0 <= i < j < |places| ==> places[i].index < places[j].index)
    && (forall k: nat :: k < n && OfUser(b.transactions[k], f) ==> Place(block, k) in places)
  }

  lemma {:induction false} RelevantInExactly(b: Block, block: nat, n: nat, f: Filter)
    requires n <= |b.transactions|
    ensures ListsIn(PlacesIn(b, block, n, f), b, block, n, f, RelevantIn(b, n, f))
  {
    if n == 0 {
    } else {
      RelevantInExactly(b, block, n - 1, f);
      RelevantExactly(b.transactions[n - 1], f);
    }
  }

  lemma ResponseAppended(init: seq<Option<Block>>, last: Option<Block>, f: Filter, p: Place)
    ensures Selected(init + [last], f, p) <==>
              || Selected(init, f, p)
              || (&& p.block == |init| && last.Some? && p.index < |last.value.transactions|
                  && OfUser(last.value.transactions[p.index], f))
  {
  }

  lemma ListsExtends(init: seq<Option<Block>>, f: Filter, ps: seq<Place>, xs: seq<Transaction>,
                     b: Block, qs: seq<Place>, ys: seq<Transaction>)
    requires Lists(ps, init, f, xs) && ListsIn(qs, b, |init|, |b.transactions|, f, ys)
    ensures Lists(ps + qs, init + [Some(b)], f, xs + ys)
  {
    var responses := init + [Some(b)];
    forall i | 0 <= i < |ps + qs|
      ensures Selected(responses, f, (ps + qs)[i])
      ensures var p := (ps + qs)[i]; Records((xs + ys)[i], TxAt(responses, p), responses[p.block].value)
    {
      ResponseAppended(init, Some(b), f, (ps + qs)[i]);
    }
    forall p | Selected(responses, f, p)
      ensures p in ps + qs
    {
      ResponseAppended(init, Some(b), f, p);
      assert p.block == |init| ==> p == Place(|init|, p.index);
    }
  }

  lemma ListsSkips(init: seq<Option<Block>>, f: Filter, ps: seq<Place>, xs: seq<Transaction>)
    requires Lists(ps, init, f, xs)
    ensures Lists(ps, init + [None], f, xs)
  {
    forall p | Selected(init + [None], f, p)
      ensures p in ps
    {
      ResponseAppended(init, None, f, p);
    }
  }

  /** Every match is listed, exactly once and in fetch order, and nothing else is. */
  lemma {:induction false} MatchesExactly(responses: seq<Option<Block>>, f: Filter)
    ensures Lists(Places(responses, f), responses, f, Matches(responses, f))
  {
    if responses == [] {
    } else {
      var n := |responses| - 1;
      var init, last := responses[..n], responses[n];
      MatchesExactly(init, f);
      assert responses == init + [last];
      if last.None? {
        ListsSkips(init, f, Places(init, f), Matches(init, f));
        assert Matches(responses, f) == Matches(init, f) && Places(responses, f) == Places(init, f);
      } else {
        var b := last.value;
        RelevantInExactly(b, n, |b.transactions|, f);
        ListsExtends(init, f, Places(init, f), Matches(init, f),
                     b, PlacesIn(b, n, |b.transactions|, f), RelevantIn(b, |b.transactions|, f));
      }
    }
  }

  /** The blocks fetched: the latest one and the twenty before it, as far as there are any. */
  lemma FetchedBlocks(chain: nat -> Option<Block>, latest: nat)
    ensures var responses := Responses(chain, latest, FirstBlock(latest));
            && |responses| == (if latest < 21 then latest + 1 else 21)
            && forall i :: 0 <= i < |responses| ==> responses[i] == chain(latest - i)
  {
  }

  /** What the user is shown: the first ten selected transactions of these blocks, each as recorded. */
  lemma ShownExactly(chain: nat -> Option<Block>, latest: nat, f: Filter)
    ensures var responses := Responses(chain, latest, FirstBlock(latest));
            var all, shown := AllMatches(chain, latest, f), Take(AllMatches(chain, latest, f), LIMIT);
            && Lists(Places(responses, f), responses, f, all)
            && |shown| == (if |all| < 10 then |all| else 10)
            && forall i :: 0 <= i < |shown| ==> shown[i] == all[i]
  {
    MatchesExactly(Responses(chain, latest, FirstBlock(latest)), f);
  }

  // ---------------------------------------------------------------- order

  ghost predicate NewestFirst(s: seq<Transaction>) {
    forall i, j :: 0 <= i <= j < |s| ==> s[i].timestamp >= s[j].timestamp
  }

  /** Timestamps do not decrease with height, among the blocks that are fetched. */
  ghost predicate TimeGoesForward(chain: nat -> Option<Block>, latest: nat) {
    forall h, k :: FirstBlock(latest) <= h <= k <= latest && chain(h).Some? && chain(k).Some? ==>
      chain(h).value.timestamp <= chain(k).value.timestamp
  }

  /** Responses whose blocks are in descending order of time. */
  ghost predicate Descending(responses: seq<Option<Block>>) {
    forall i, j :: 0 <= i <= j < |responses| && responses[i].Some? && responses[j].Some? ==>
      responses[i].value.timestamp >= responses[j].value.timestamp
  }

  lemma {:induction false} RelevantInBlock(b: Block, n: nat, f: Filter)
    requires n <= |b.transactions|
    ensures forall i :: 0 <= i < |RelevantIn(b, n, f)| ==> RelevantIn(b, n, f)[i].timestamp == b.timestamp * 1000
  {
    if n == 0 {
    } else {
      RelevantInBlock(b, n - 1, f);
    }
  }

  lemma {:induction false} MatchesAtLeast(responses: seq<Option<Block>>, f: Filter, bound: nat)
    requires forall j :: 0 <= j < |responses| && responses[j].Some? ==> responses[j].value.timestamp >= bound
    ensures forall i :: 0 <= i < |Matches(responses, f)| ==> Matches(responses, f)[i].timestamp >= bound * 1000
  {
    if responses == [] {
    } else {
      var n := |responses| - 1;
      MatchesAtLeast(responses[..n], f, bound);
      if responses[n].Some? {
        RelevantInBlock(responses[n].value, |responses[n].value.transactions|, f);
      }
    }
  }

  lemma {:induction false} MatchesNewestFirst(responses: seq<Option<Block>>, f: Filter)
    requires Descending(responses)
    ensures NewestFirst(Matches(responses, f))
  {
    if responses == [] {
    } else {
      var n := |responses| - 1;
      MatchesNewestFirst(responses[..n], f);
      if responses[n].Some? {
        var b := responses[n].value;
        RelevantInBlock(b, |b.transactions|, f);
        MatchesAtLeast(responses[..n], f, b.timestamp);
      }
    }
  }

  /** The transactions with a given timestamp, in order. */
  function At(s: seq<Transaction>, t: int): seq<Transaction> {
    if s == [] then []
    else if s[0].timestamp == t then [s[0]] + At(s[1..], t)
    else At(s[1..], t)
  }

  /** `sorted` is `s` sorted newest first, transactions of equal time keeping their order. */
  ghost predicate IsStableSort(s: seq<Transaction>, sorted: seq<Transaction>) {
    NewestFirst(sorted) && forall t :: At(sorted, t) == At(s, t)
  }

  lemma {:induction false} AtFindsTime(s: seq<Transaction>, t: int)
    requires At(s, t) != []
    ensures exists i :: 0 <= i < |s| && s[i].timestamp == t
  {
    if s == [] {
      assert false;
    } else if s[0].timestamp != t {
      AtFindsTime(s[1..], t);
      var i :| 0 <= i < |s[1..]| && s[1..][i].timestamp == t;
      assert s[i + 1].timestamp == t;
    }
  }

  lemma {:induction false} HeadNotNewer(s: seq<Transaction>, r: seq<Transaction>)
    requires NewestFirst(s) && NewestFirst(r) && s != []
    requires At(s, s[0].timestamp) == At(r, s[0].timestamp)
    ensures r != [] && s[0].timestamp <= r[0].timestamp
  {
    AtFindsTime(r, s[0].timestamp);
  }

  lemma {:induction false} SortedFormIsUnique(s: seq<Transaction>, r: seq<Transaction>)
    requires NewestFirst(s) && NewestFirst(r)
    requires forall t :: At(s, t) == At(r, t)
    ensures s == r
  {
    if s == [] && r == [] {
    } else if s == [] {
      HeadNotNewer(r, s);
    } else {
      HeadNotNewer(s, r);
      HeadNotNewer(r, s);
      var head := s[0].timestamp;
      assert At(s, head)[0] == s[0] && At(r, head)[0] == r[0];
      forall t
        ensures At(s[1..], t) == At(r[1..], t)
      {
        assert At(s, t) == At(r, t);
        if t == head {
          assert At(s, t)[1..] == At(s[1..], t) && At(r, t)[1..] == At(r[1..], t);
        }
      }
      SortedFormIsUnique(s[1..], r[1..]);
      assert s == [s[0]] + s[1..] && r == [r[0]] + r[1..];
    }
  }

  lemma AllMatchesNewestFirst(chain: nat -> Option<Block>, latest: nat, f: Filter)
    requires TimeGoesForward(chain, latest)
    ensures NewestFirst(AllMatches(chain, latest, f))
  {
    MatchesNewestFirst(Responses(chain, latest, FirstBlock(latest)), f);
  }

  /**
   Cutting before sorting is still right. When block times do not go back, what is shown is a prefix
   of the matches, newest first; no match left out is newer than any that is shown; and it is what
   any stable sort followed by the cut would have given.
   */
  lemma CutBeforeSortIsRight(chain: nat -> Option<Block>, latest: nat, f: Filter, sorted: seq<Transaction>)
    requires TimeGoesForward(chain, latest)
    ensures var all := AllMatches(chain, latest, f);
            var shown := Take(all, LIMIT);
            && shown <= all && NewestFirst(shown)
            && (forall i, j :: 0 <= i < |shown| <= j < |all| ==> all[j].timestamp <= shown[i].timestamp)
            && (IsStableSort(all, sorted) ==> shown == Take(sorted, LIMIT))
  {
    var all := AllMatches(chain, latest, f);
    AllMatchesNewestFirst(chain, latest, f);
    if IsStableSort(all, sorted) {
      SortedFormIsUnique(all, sorted);
    }
  }
}
