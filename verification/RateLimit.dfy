/**
 The fixed-window rate limiter of backend/src/middleware/auth.ts.

 One table serves every limiter the program creates: `rateLimit(maxRequests, windowMs)` only closes
 over its two parameters, and the table is keyed by the client alone. A request therefore carries the
 parameters of the limiter it goes through, and a trace may mix limiters freely.
 */
module RateLimit {

  type Client = string

  /** Milliseconds, as returned by `Date.now()`. */
  type Time = int

  datatype Entry = Entry(count: int, resetTime: Time)

  type Table = map<Client, Entry>

  datatype Request = Request(client: Client, maxRequests: int, windowMs: int, at: Time)

  predicate Opens(table: Table, r: Request) {
    r.client !in table || table[r.client].resetTime < r.at
  }

  predicate Admits(table: Table, r: Request) {
    Opens(table, r) || table[r.client].count < r.maxRequests
  }

  function Update(table: Table, r: Request): Table {
    if Opens(table, r) then
      table[r.client := Entry(1, r.at + r.windowMs)]
    else if table[r.client].count >= r.maxRequests then
      table
    else
      table[r.client := Entry(table[r.client].count + 1, table[r.client].resetTime)]
  }

  // ---------------------------------------------------------------- the program

  /** The counter object stored in the map and incremented in place. */
  class ClientData {
    var count: int
    var resetTime: Time

    constructor (count: int, resetTime: Time)
      ensures this.count == count && this.resetTime == resetTime
    {
      this.count, this.resetTime := count, resetTime;
    }
  }

  class RateLimits {
    var rateLimits: map<Client, ClientData>

    /** No two clients share a counter object. */
    ghost predicate Valid()
      reads this
    {
      forall c, d :: c in rateLimits && d in rateLimits && c != d ==> rateLimits[c] != rateLimits[d]
    }

    ghost function Contents(): Table
      reads this, rateLimits.Values
    {
      map c | c in rateLimits :: Entry(rateLimits[c].count, rateLimits[c].resetTime)
    }

    constructor ()
      ensures Valid() && Contents() == map[]
    {
      rateLimits := map[];
    }

    /** One request through the limiter `rateLimit(maxRequests, windowMs)`. */
    method Handle(client: Client, maxRequests: int, windowMs: int, now: Time) returns (admitted: bool)
      requires Valid()
      modifies this, rateLimits.Values
      ensures Valid() && fresh(rateLimits.Values - old(rateLimits.Values))
      ensures admitted == Admits(old(Contents()), Request(client, maxRequests, windowMs, now))
      ensures Contents() == Update(old(Contents()), Request(client, maxRequests, windowMs, now))
    {
      if client !in rateLimits || rateLimits[client].resetTime < now {
        var data := new ClientData(1, now + windowMs);
        rateLimits := rateLimits[client := data];
        return true;
      }
      var clientData := rateLimits[client];
      if clientData.count >= maxRequests {
        return false;
      }
      clientData.count := clientData.count + 1;
      return true;
    }
  }

  // ---------------------------------------------------------------- traces

  function TableAfter(es: seq<Request>): Table {
    if es == [] then map[] else Update(TableAfter(es[..|es| - 1]), es[|es| - 1])
  }

  /** The decision on the i-th request of a trace. */
  predicate Admitted(es: seq<Request>, i: nat)
    requires i < |es|
  {
    Admits(TableAfter(es[..i]), es[i])
  }

  ghost predicate InOrder(es: seq<Request>) {
    forall i, j :: 0 <= i <= j < |es| ==> es[i].at <= es[j].at
  }

  lemma {:induction false} CountsArePositive(es: seq<Request>, c: Client)
    requires c in TableAfter(es)
    ensures TableAfter(es)[c].count >= 1
  {
    if es == [] {
      assert false;
    } else if c in TableAfter(es[..|es| - 1]) {
      CountsArePositive(es[..|es| - 1], c);
    }
  }

  // ---------------------------------------------------------------- refusals, read off the trace

  /** The request that opened the client's current window, or -1; uses times only, no counters. */
  function CurrentOpening(es: seq<Request>, c: Client): int
    ensures -1 <= CurrentOpening(es, c) < |es|
  {
    if es == [] then -1
    else
      var n := |es| - 1;
      var k := CurrentOpening(es[..n], c);
      if es[n].client == c && (k < 0 || es[k].at + es[k].windowMs < es[n].at) then n else k
  }

  /** Admissions of client `c` from the k-th request on. */
  function AdmittedSince(es: seq<Request>, c: Client, k: int): nat {
    if es == [] || |es| <= k then 0
    else
      var n := |es| - 1;
      AdmittedSince(es[..n], c, k) + if es[n].client == c && Admitted(es, n) then 1 else 0
  }

  /** The table says of each client when its window ends and how often it was admitted in it. */
  lemma {:induction false} TableIsFaithful(es: seq<Request>, c: Client)
    ensures var k := CurrentOpening(es, c);
            && (c in TableAfter(es) <==> k >= 0)
            && (k >= 0 ==>
                  TableAfter(es)[c] == Entry(AdmittedSince(es, c, k), es[k].at + es[k].windowMs))
  {
    if es == [] {
    } else {
      var n := |es| - 1;
      var init := es[..n];
      var k := CurrentOpening(init, c);
      TableIsFaithful(init, c);
      if es[n].client == c && (k < 0 || es[k].at + es[k].windowMs < es[n].at) {
        assert AdmittedSince(init, c, n) == 0;
        assert Admitted(es, n);
      }
    }
  }

  /**
   Exactly when a request is refused: its client has a window that has not ended, and since that
   window opened the same client was admitted at least `maxRequests` times.
   */
  lemma {:induction false} RefusedExactlyWhenUsedUp(es: seq<Request>, i: nat)
    requires i < |es|
    ensures var k := CurrentOpening(es[..i], es[i].client);
            !Admitted(es, i) <==>
              && k >= 0
              && es[i].at <= es[k].at + es[k].windowMs
              && AdmittedSince(es[..i], es[i].client, k) >= es[i].maxRequests
  {
    TableIsFaithful(es[..i], es[i].client);
  }

  // ---------------------------------------------------------------- isolation

  /** The requests of client `c` alone. */
  function Of(es: seq<Request>, c: Client): seq<Request> {
    if es == [] then []
    else
      var n := |es| - 1;
      if es[n].client == c then Of(es[..n], c) + [es[n]] else Of(es[..n], c)
  }

  /** The decisions on the requests of client `c`, in order. */
  function DecisionsFor(es: seq<Request>, c: Client): seq<bool> {
    if es == [] then []
    else
      var n := |es| - 1;
      if es[n].client == c then DecisionsFor(es[..n], c) + [Admitted(es, n)] else DecisionsFor(es[..n], c)
  }

  /** Clients do not affect each other: replaying one client's requests gives the same decisions. */
  lemma {:induction false} ClientsAreIsolated(es: seq<Request>, c: Client)
    ensures DecisionsFor(es, c) == DecisionsFor(Of(es, c), c)
    ensures c in TableAfter(es) <==> c in TableAfter(Of(es, c))
    ensures c in TableAfter(es) ==> TableAfter(es)[c] == TableAfter(Of(es, c))[c]
  {
    if es == [] {
    } else {
      var n := |es| - 1;
      ClientsAreIsolated(es[..n], c);
      if es[n].client == c {
        var own := Of(es, c);
        assert own[..|own| - 1] == Of(es[..n], c);
      }
    }
  }
}
