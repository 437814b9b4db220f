/**
 The response cache of src/utils/coreApi.ts under concurrent calls.

 A call of `request` is two steps: Begin runs up to the first `await` and either serves the cache or
 sends a fetch; Finish runs when the body has arrived, or when the fetch failed. Any number of calls,
 by clients of any chain, may be between their two steps at the same time.
 */
module CoreApi {

  const CACHE_DURATION := 120000

  type Time = int

  /** The entries of a parameter record, in insertion order. */
  type Params = seq<(string, string)>

  // ---------------------------------------------------------------- keys

  function Digits(n: nat): string {
    var last := [('0' as int + n % 10) as char];
    if n < 10 then last else Digits(n / 10) + last
  }

  /** The decimal text of a chain id, as string interpolation writes it. */
  function Decimal(n: int): string {
    if n < 0 then "-" + Digits(-n) else Digits(n)
  }

  function GetCoreApiUrl(chainId: int): string {
    match chainId
    case 1116 => "https://openapi.coredao.org/api"
    case 1114 => "https://openapi.coredao.org/api"
    case _ => "https://openapi.coredao.org/api"
  }

  function Key(json: Params -> string, chainId: int, params: Params): string {
    GetCoreApiUrl(chainId) + "_" + json(params) + "_" + Decimal(chainId)
  }

  ghost predicate Injective(json: Params -> string) {
    forall p, q :: json(p) == json(q) ==> p == q
  }

  function Value(s: string): int {
    if s == [] then 0 else Value(s[..|s| - 1]) * 10 + (s[|s| - 1] as int - '0' as int)
  }

  lemma {:induction false} DigitsRoundTrip(n: nat)
    ensures Value(Digits(n)) == n
    ensures Digits(n) != [] && forall i :: 0 <= i < |Digits(n)| ==> '0' <= Digits(n)[i] <= '9'
  {
    if n >= 10 {
      DigitsRoundTrip(n / 10);
      assert Digits(n)[..|Digits(n)| - 1] == Digits(n / 10);
    } else {
      assert Digits(n)[..0] == [];
    }
  }

  lemma DecimalInjective(m: int, n: int)
    requires Decimal(m) == Decimal(n)
    ensures m == n
  {
    var a, b := if m < 0 then -m else m, if n < 0 then -n else n;
    DigitsRoundTrip(a);
    DigitsRoundTrip(b);
    assert m < 0 <==> Decimal(m)[0] == '-';
    assert n < 0 <==> Decimal(n)[0] == '-';
    if m < 0 {
      assert Decimal(m)[1..] == Digits(a) && Decimal(n)[1..] == Digits(b);
    }
  }

  lemma DecimalHasNoUnderscore(n: int)
    ensures '_' !in Decimal(n)
  {
    DigitsRoundTrip(if n < 0 then -n else n);
  }

  lemma EarlierSplitLeavesUnderscore(a: string, x: string, b: string, y: string)
    requires a + "_" + x == b + "_" + y && |a| < |b|
    ensures '_' in x
  {
    assert (a + "_" + x)[|b|] == x[|b| - |a| - 1];
    assert (b + "_" + y)[|b|] == '_';
  }

  lemma LastUnderscoreSplits(a: string, x: string, b: string, y: string)
    requires '_' !in x && '_' !in y && a + "_" + x == b + "_" + y
    ensures a == b && x == y
  {
    if |a| < |b| {
      EarlierSplitLeavesUnderscore(a, x, b, y);
    } else if |b| < |a| {
      EarlierSplitLeavesUnderscore(b, y, a, x);
    } else {
      var left, right := a + "_" + x, b + "_" + y;
      assert left[..|a|] == a && right[..|a|] == b;
      assert left[|a| + 1..] == x && right[|a| + 1..] == y;
    }
  }

  /** Different calls have different keys: the key determines the chain and the parameters. */
  lemma KeyInjective(json: Params -> string, chainId: int, params: Params, chainId': int, params': Params)
    requires Injective(json)
    ensures Key(json, chainId, params) == Key(json, chainId', params')
       <==> chainId == chainId' && params == params'
  {
    if Key(json, chainId, params) == Key(json, chainId', params') {
      DecimalHasNoUnderscore(chainId);
      DecimalHasNoUnderscore(chainId');
      LastUnderscoreSplits(GetCoreApiUrl(chainId) + "_" + json(params), Decimal(chainId),
                           GetCoreApiUrl(chainId') + "_" + json(params'), Decimal(chainId'));
      DecimalInjective(chainId, chainId');
      var prefix := GetCoreApiUrl(chainId) + "_";
      assert (prefix + json(params))[|prefix|..] == json(params);
      assert (prefix + json(params'))[|prefix|..] == json(params');
    }
  }

  // ---------------------------------------------------------------- the machine

  datatype Entry = Entry(data: string, timestamp: Time)

  datatype Call = Call(chainId: int, params: Params)

  /** A successful response: the body the network sent for a call, and when it arrived. */
  datatype Reply = Reply(call: Call, data: string, at: Time)

  datatype Source = Network | Cache(storedAt: Time)

  /** What a call resolved with. */
  datatype Served = Served(call: Call, data: string, at: Time, source: Source)

  datatype State = State(
    apiCache: map<string, Entry>,
    pending: map<nat, Call>,   // calls whose fetch has not come back
    replies: seq<Reply>,
    served: seq<Served>,
    clock: Time)

  datatype Event =
    | Begin(id: nat, call: Call, now: Time)
    | Finish(id: nat, body: Response, now: Time)

  datatype Response = Body(data: string) | RequestFailed

  function Init(now: Time): State {
    State(map[], map[], [], [], now)
  }

  predicate Enabled(s: State, e: Event) {
    && s.clock <= e.now
    && match e
       case Begin(id, _, _) => id !in s.pending
       case Finish(id, _, _) => id in s.pending
  }

  predicate Fresh(cache: map<string, Entry>, key: string, now: Time) {
    key in cache && now - cache[key].timestamp < CACHE_DURATION
  }

  function Step(json: Params -> string, s: State, e: Event): State
    requires Enabled(s, e)
  {
    match e
    case Begin(id, call, now) =>
      var key := Key(json, call.chainId, call.params);
      if Fresh(s.apiCache, key, now) then
        var hit := s.apiCache[key];
        s.(clock := now, served := s.served + [Served(call, hit.data, now, Cache(hit.timestamp))])
      else
        s.(clock := now, pending := s.pending[id := call])
    case Finish(id, RequestFailed, now) =>
      s.(clock := now, pending := s.pending - {id})
    case Finish(id, Body(data), now) =>
      var call := s.pending[id];
      s.(clock := now, pending := s.pending - {id},
         apiCache := s.apiCache[Key(json, call.chainId, call.params) := Entry(data, now)],
         replies := s.replies + [Reply(call, data, now)],
         served := s.served + [Served(call, data, now, Network)])
  }

  // ---------------------------------------------------------------- the program

  class Client {
    const json: Params -> string
    var apiCache: map<string, Entry>

    ghost var pending: map<nat, Call>
    ghost var replies: seq<Reply>
    ghost var served: seq<Served>
    ghost var clock: Time

    ghost function Now(): State
      reads this
    {
      State(apiCache, pending, replies, served, clock)
    }

    constructor (json: Params -> string, ghost now: Time)
      ensures this.json == json && Now() == Init(now)
    {
      this.json := json;
      apiCache, pending, replies, served, clock := map[], map[], [], [], now;
    }

    /** `request` up to the fetch; a hit is returned, a miss is not. */
    method BeginRequest(ghost id: nat, chainId: int, params: Params, now: Time)
      returns (hit: bool, data: string)
      requires Enabled(Now(), Begin(id, Call(chainId, params), now))
      modifies this
      ensures Now() == Step(json, old(Now()), Begin(id, Call(chainId, params), now))
      ensures var key := Key(json, chainId, params);
              && (hit <==> key in old(apiCache) && now - old(apiCache)[key].timestamp < 120000)
              && (hit ==> data == old(apiCache)[key].data)
    {
      var cacheKey := Key(json, chainId, params);
      clock := now;
      if cacheKey in apiCache {
        var cached := apiCache[cacheKey];
        if now - cached.timestamp < CACHE_DURATION {
          served := served + [Served(Call(chainId, params), cached.data, now, Cache(cached.timestamp))];
          return true, cached.data;
        }
      }
      pending := pending[id := Call(chainId, params)];
      return false, "";
    }

    /** The rest of `request`: a failed request throws and leaves the cache alone. */
    method FinishRequest(ghost id: nat, chainId: int, params: Params, response: Response, now: Time)
      returns (data: string)
      requires Enabled(Now(), Finish(id, response, now)) && pending[id] == Call(chainId, params)
      modifies this
      ensures Now() == Step(json, old(Now()), Finish(id, response, now))
      ensures response.Body? ==> data == response.data
    {
      clock := now;
      pending := pending - {id};
      match response {
        case RequestFailed =>
          data := "";
        case Body(body) =>
          apiCache := apiCache[Key(json, chainId, params) := Entry(body, now)];
          replies := replies + [Reply(Call(chainId, params), body, now)];
          served := served + [Served(Call(chainId, params), body, now, Network)];
          data := body;
      }
    }
  }

  // ---------------------------------------------------------------- invariant

  /** The latest successful response to a call: what the cache is supposed to hold. */
  function Latest(replies: seq<Reply>, call: Call): seq<Reply> {
    if replies == [] then []
    else if replies[|replies| - 1].call == call then [replies[|replies| - 1]]
    else Latest(replies[..|replies| - 1], call)
  }

  ghost predicate CacheIsLatest(json: Params -> string, s: State) {
    forall c: Call ::
      var key, latest := Key(json, c.chainId, c.params), Latest(s.replies, c);
      && (key in s.apiCache <==> latest != [])
      && (latest != [] ==> s.apiCache[key] == Entry(latest[0].data, latest[0].at))
  }

  ghost predicate Genuine(replies: seq<Reply>, v: Served) {
    exists i :: 0 <= i < |replies|
      && replies[i].call == v.call && replies[i].data == v.data
      && match v.source
         case Network => replies[i].at == v.at
         case Cache(storedAt) => replies[i].at == storedAt && v.at - storedAt < 120000
  }

  ghost predicate AllGenuine(s: State) {
    forall i :: 0 <= i < |s.served| ==> Genuine(s.replies, s.served[i])
  }

  ghost predicate Inv(json: Params -> string, s: State) {
    && CacheIsLatest(json, s)
    && AllGenuine(s)
  }

  lemma {:induction false} LatestIsAReply(replies: seq<Reply>, call: Call)
    ensures var latest := Latest(replies, call);
            latest != [] ==> latest[0] in replies && latest[0].call == call
  {
    if replies == [] {
    } else if replies[|replies| - 1].call != call {
      LatestIsAReply(replies[..|replies| - 1], call);
    }
  }

  lemma GenuineExtends(replies: seq<Reply>, next: Reply, v: Served)
    requires Genuine(replies, v)
    ensures Genuine(replies + [next], v)
  {
    var i :| 0 <= i < |replies| && replies[i].call == v.call && replies[i].data == v.data
      && match v.source
         case Network => replies[i].at == v.at
         case Cache(storedAt) => replies[i].at == storedAt && v.at - storedAt < 120000;
    assert (replies + [next])[i] == replies[i];
  }

  lemma FinishKeepsCacheIsLatest(json: Params -> string, s: State, e: Event)
    requires Injective(json) && CacheIsLatest(json, s) && Enabled(s, e) && e.Finish? && e.body.Body?
    ensures CacheIsLatest(json, Step(json, s, e))
  {
    var r, call := Step(json, s, e), s.pending[e.id];
    forall c: Call
      ensures var key, latest := Key(json, c.chainId, c.params), Latest(r.replies, c);
              && (key in r.apiCache <==> latest != [])
              && (latest != [] ==> r.apiCache[key] == Entry(latest[0].data, latest[0].at))
    {
      KeyInjective(json, c.chainId, c.params, call.chainId, call.params);
      assert r.replies[..|r.replies| - 1] == s.replies;
    }
  }

  lemma HitIsGenuine(json: Params -> string, s: State, call: Call, now: Time)
    requires CacheIsLatest(json, s)
    requires Fresh(s.apiCache, Key(json, call.chainId, call.params), now)
    ensures var hit := s.apiCache[Key(json, call.chainId, call.params)];
            Genuine(s.replies, Served(call, hit.data, now, Cache(hit.timestamp)))
  {
    var latest := Latest(s.replies, call);
    LatestIsAReply(s.replies, call);
    var i :| 0 <= i < |s.replies| && s.replies[i] == latest[0];
  }

  lemma FinishKeepsGenuine(json: Params -> string, s: State, e: Event)
    requires AllGenuine(s) && Enabled(s, e) && e.Finish? && e.body.Body?
    ensures AllGenuine(Step(json, s, e))
  {
    var r := Step(json, s, e);
    var next := r.replies[|s.replies|];
    assert r.replies == s.replies + [next];
    forall i | 0 <= i < |r.served|
      ensures Genuine(r.replies, r.served[i])
    {
      if i < |s.served| {
        GenuineExtends(s.replies, next, s.served[i]);
      } else {
        assert next.call == r.served[i].call;
      }
    }
  }

  lemma StepKeepsInv(json: Params -> string, s: State, e: Event)
    requires Injective(json) && Inv(json, s) && Enabled(s, e)
    ensures Inv(json, Step(json, s, e))
  {
    match e {
      case Begin(id, call, now) =>
        if Fresh(s.apiCache, Key(json, call.chainId, call.params), now) {
          HitIsGenuine(json, s, call, now);
        }
        assert CacheIsLatest(json, Step(json, s, e));
      case Finish(id, response, now) =>
        if response.Body? {
          FinishKeepsCacheIsLatest(json, s, e);
          FinishKeepsGenuine(json, s, e);
        } else {
          assert CacheIsLatest(json, Step(json, s, e));
        }
    }
  }

  // ---------------------------------------------------------------- runs

  predicate Legal(json: Params -> string, s: State, es: seq<Event>)
    decreases |es|
  {
    es == [] || (Enabled(s, es[0]) && Legal(json, Step(json, s, es[0]), es[1..]))
  }

  function Run(json: Params -> string, s: State, es: seq<Event>): State
    requires Legal(json, s, es)
    decreases |es|
  {
    if es == [] then s else Run(json, Step(json, s, es[0]), es[1..])
  }

  lemma {:induction false} RunKeepsInv(json: Params -> string, s: State, es: seq<Event>)
    requires Injective(json) && Inv(json, s) && Legal(json, s, es)
    ensures Inv(json, Run(json, s, es))
    decreases |es|
  {
    if es == [] {
    } else {
      StepKeepsInv(json, s, es[0]);
      RunKeepsInv(json, Step(json, s, es[0]), es[1..]);
    }
  }

  /**
   The cache agrees with the network. Under any interleaving of calls, whatever a call resolves with
   is the body of a successful response to the same chain and parameters, stored less than the cache
   duration ago when it is a hit; and the cache holds, for each call, its latest successful response.
   */
  lemma {:induction false} CacheAgreesWithNetwork(json: Params -> string, start: Time, es: seq<Event>)
    requires Injective(json) && Legal(json, Init(start), es)
    ensures var s := Run(json, Init(start), es);
            AllGenuine(s) && CacheIsLatest(json, s)
  {
    RunKeepsInv(json, Init(start), es);
  }

  lemma BeginServes(json: Params -> string, s: State, id: nat, call: Call, now: Time)
    requires CacheIsLatest(json, s) && Enabled(s, Begin(id, call, now))
    ensures var latest, r := Latest(s.replies, call), Step(json, s, Begin(id, call, now));
            if latest != [] && now - latest[0].at < 120000 then
              r == s.(clock := now, served := s.served + [Served(call, latest[0].data, now, Cache(latest[0].at))])
            else
              r == s.(clock := now, pending := s.pending[id := call])
  {
  }

  /**
   After any run, a new call is answered at once, with the body of its latest successful response, exactly
   when that response came less than two minutes ago; otherwise it is sent to the network and nothing is
   served. Nothing else changes.
   */
  lemma {:induction false} HitsExactlyWhenRecent(json: Params -> string, start: Time, es: seq<Event>, id: nat,
                                                 call: Call, now: Time)
    requires Injective(json) && Legal(json, Init(start), es)
    requires Enabled(Run(json, Init(start), es), Begin(id, call, now))
    ensures var s := Run(json, Init(start), es);
            var latest, r := Latest(s.replies, call), Step(json, s, Begin(id, call, now));
            if latest != [] && now - latest[0].at < 120000 then
              r == s.(clock := now, served := s.served + [Served(call, latest[0].data, now, Cache(latest[0].at))])
            else
              r == s.(clock := now, pending := s.pending[id := call])
  {
    RunKeepsInv(json, Init(start), es);
    BeginServes(json, Run(json, Init(start), es), id, call, now);
  }

  /** The response that came to a call sent by `id`. */
  ghost predicate Answers(s: State, r: State, id: nat, data: string, now: Time)
    requires id in s.pending
  {
    && r.served == s.served + [Served(s.pending[id], data, now, Network)]
    && Latest(r.replies, s.pending[id]) == [Reply(s.pending[id], data, now)]
    && forall c :: c != s.pending[id] ==> Latest(r.replies, c) == Latest(s.replies, c)
  }

  /**
   A response that arrives is what its own call resolves with and is that call's latest one from then on;
   a failed fetch serves nothing and is forgotten. Either way the call is no longer on its way, and every
   other one still is.
   */
  lemma {:induction false} FetchAnswersItsCall(json: Params -> string, s: State, id: nat, body: Response, now: Time)
    requires Enabled(s, Finish(id, body, now))
    ensures var r := Step(json, s, Finish(id, body, now));
            && r.pending == s.pending - {id}
            && (body.Body? ==> Answers(s, r, id, body.data, now))
            && (body.RequestFailed? ==>
                  r.apiCache == s.apiCache && r.replies == s.replies && r.served == s.served)
  {
    var r := Step(json, s, Finish(id, body, now));
    if body.Body? {
      assert r.replies[..|r.replies| - 1] == s.replies;
    }
  }

  /** No entry was stored later than now. */
  ghost predicate StoredBefore(s: State) {
    forall key :: key in s.apiCache ==> s.apiCache[key].timestamp <= s.clock
  }

  lemma StepKeepsStoredBefore(json: Params -> string, s: State, e: Event)
    requires StoredBefore(s) && Enabled(s, e)
    ensures StoredBefore(Step(json, s, e))
  {
  }

  lemma {:induction false} RunKeepsStoredBefore(json: Params -> string, s: State, es: seq<Event>)
    requires Legal(json, s, es) && StoredBefore(s)
    ensures StoredBefore(Run(json, s, es))
    decreases |es|
  {
    if es == [] {
    } else {
      StepKeepsStoredBefore(json, s, es[0]);
      RunKeepsStoredBefore(json, Step(json, s, es[0]), es[1..]);
    }
  }

  lemma {:induction false} TimestampNeverDecreasesFrom(json: Params -> string, s: State, es: seq<Event>, key: string)
    requires Legal(json, s, es) && StoredBefore(s) && key in s.apiCache
    ensures var r := Run(json, s, es);
            key in r.apiCache && s.apiCache[key].timestamp <= r.apiCache[key].timestamp
    decreases |es|
  {
    if es == [] {
    } else {
      StepKeepsStoredBefore(json, s, es[0]);
      TimestampNeverDecreasesFrom(json, Step(json, s, es[0]), es[1..], key);
    }
  }

  /** Entries are never dropped, and the timestamp of a key never goes back. */
  lemma {:induction false} TimestampsNeverDecrease(json: Params -> string, start: Time, before: seq<Event>,
                                                    after: seq<Event>, key: string)
    requires Legal(json, Init(start), before) && Legal(json, Run(json, Init(start), before), after)
    requires key in Run(json, Init(start), before).apiCache
    ensures var s := Run(json, Init(start), before);
            var r := Run(json, s, after);
            key in r.apiCache && s.apiCache[key].timestamp <= r.apiCache[key].timestamp
  {
    RunKeepsStoredBefore(json, Init(start), before);
    TimestampNeverDecreasesFrom(json, Run(json, Init(start), before), after, key);
  }
}
