/**
 Sliding-interval bounds for the rate limiter of backend/src/middleware/auth.ts: how many admissions a
 fixed-window limiter really lets through in an interval that starts anywhere, alone and when limiters
 with shorter windows share its table. The bounds are sharp: traces reach them.
 */
module RateLimitBounds {
  import opened RateLimit

  /**
   How often client `c` was admitted at a time in [from, until] by a limiter whose maximum is at most
   `m`. Counted from the decisions, not from the table.
   */
  function Granted(es: seq<Request>, c: Client, m: int, from: Time, until: Time): nat {
    if es == [] then 0
    else
      var n := |es| - 1;
      Granted(es[..n], c, m, from, until)
      + if es[n].client == c && es[n].maxRequests <= m && from <= es[n].at <= until && Admitted(es, n)
        then 1 else 0
  }

  /** The windows of limiters of maximum at most `m` are at least `own`, and all others at least `w`. */
  predicate LongEnough(r: Request, m: int, own: nat, w: nat) {
    r.windowMs >= w && (r.maxRequests <= m ==> r.windowMs >= own)
  }

  ghost predicate WindowsAtLeast(es: seq<Request>, c: Client, m: int, own: nat, w: nat) {
    forall i :: 0 <= i < |es| && es[i].client == c ==> LongEnough(es[i], m, own, w)
  }

  // ---------------------------------------------------------------- counting windows

  /** The most windows of length at least `w` that can open at times in [from, until]. */
  function Windows(from: Time, until: Time, w: nat): nat
    decreases until - from
  {
    if until < from then 0 else 1 + Windows(from + w + 1, until, w)
  }

  lemma {:induction false} WindowsMonotone(from: Time, from': Time, until: Time, w: nat)
    requires from <= from'
    ensures Windows(from', until, w) <= Windows(from, until, w)
    decreases until - from
  {
    if until < from' {
    } else {
      WindowsMonotone(from + w + 1, from' + w + 1, until, w);
    }
  }

  lemma MultipleApart(k: int, d: int)
    requires d > 0
    ensures k >= 1 ==> k * d >= d
    ensures k <= -1 ==> k * d <= -d
  {
  }

  lemma QuotientIs(x: int, d: int, q: int, r: int)
    requires 0 <= r < d && x == q * d + r
    ensures x / d == q
  {
    assert x == (x / d) * d + x % d;
    assert (x / d - q) * d == r - x % d;
    MultipleApart(x / d - q, d);
  }

  lemma {:induction false} WindowsClosedForm(from: Time, length: nat, w: nat)
    ensures Windows(from, from + length, w) == length / (w + 1) + 1
    decreases length
  {
    if length <= w {
      QuotientIs(length, w + 1, 0, length);
      assert Windows(from + w + 1, from + length, w) == 0;
    } else {
      var rest := length - (w + 1);
      WindowsClosedForm(from + w + 1, rest, w);
      var q := rest / (w + 1);
      assert length == q * (w + 1) + rest % (w + 1) + (w + 1) == (q + 1) * (w + 1) + rest % (w + 1);
      QuotientIs(length, w + 1, q + 1, rest % (w + 1));
    }
  }

  function Max(a: int, b: int): int {
    if a < b then b else a
  }

  lemma ProductMonotone(m: int, a: int, b: int)
    requires m >= 0 && a <= b
    ensures m * a <= m * b
  {
    assert m * (b - a) >= 0;
  }

  lemma Distribute(m: int, k: int)
    ensures m * (1 + k) == m + m * k
  {
  }

  lemma Product(m: int, a: int, b: int)
    requires m >= 1 && a + 1 <= b
    ensures m + m * a <= m * b
  {
    Distribute(m, a);
    ProductMonotone(m, a + 1, b);
  }

  // ---------------------------------------------------------------- paying for admissions

  /** The most admissions to be had in windows that open at `t` or later. */
  type Plan = Time -> nat

  ghost predicate Antitone(future: Plan) {
    forall t, t' :: t <= t' ==> future(t') <= future(t)
  }

  /** Opening a window pays for the opening, for what the window has left, and for what comes after it. */
  predicate Fits(future: Plan, r: Request, m: nat) {
    && r.windowMs >= 0
    && (if r.maxRequests <= m then 1 else 0) + m - 1 + future(r.at + r.windowMs + 1) <= future(r.at)
  }

  /**
   The most admissions the client can still get from `from` on, as the table stands: what its window has
   left, if that reaches so far, and what can open after it.
   */
  function Allowance(table: Table, c: Client, m: nat, from: Time, future: Plan): int {
    if c in table then
      (if table[c].resetTime >= from then Max(0, m - table[c].count) else 0)
      + future(Max(table[c].resetTime + 1, from))
    else
      future(from)
  }

  /** Either windows open from the first instant on, or the rest of an older window comes first. */
  function Most(m: nat, from: Time, future: Plan): int {
    Max(future(from), m - 1 + future(from + 1))
  }

  lemma AllowanceAtMost(table: Table, c: Client, m: nat, from: Time, future: Plan)
    requires m >= 1 && Antitone(future) && (c in table ==> table[c].count >= 1)
    ensures Allowance(table, c, m, from, future) <= Most(m, from, future)
  {
  }

  lemma OpeningPays(table: Table, r: Request, m: nat, from: Time, future: Plan)
    requires m >= 1 && from <= r.at && Antitone(future) && Fits(future, r, m)
    requires Opens(table, r)
    ensures (if r.maxRequests <= m then 1 else 0) + Allowance(Update(table, r), r.client, m, from, future)
         <= Allowance(table, r.client, m, from, future)
  {
    var first := if r.client in table then Max(table[r.client].resetTime + 1, from) else from;
    assert future(r.at) <= future(first);
  }

  /** A request inside the interval pays for its own admission out of the allowance. */
  lemma AllowancePays(table: Table, r: Request, c: Client, m: nat, from: Time, future: Plan)
    requires m >= 1 && from <= r.at && Antitone(future)
    requires r.client == c ==> Fits(future, r, m)
    ensures Allowance(Update(table, r), c, m, from, future)
         <= Allowance(table, c, m, from, future)
            - if r.client == c && r.maxRequests <= m && Admits(table, r) then 1 else 0
  {
    if r.client == c && Opens(table, r) {
      OpeningPays(table, r, m, from, future);
    }
  }

  lemma {:induction false} NothingGrantedYet(es: seq<Request>, c: Client, m: int, from: Time, until: Time)
    requires forall i :: 0 <= i < |es| ==> es[i].at < from
    ensures Granted(es, c, m, from, until) == 0
  {
    if es == [] {
    } else {
      NothingGrantedYet(es[..|es| - 1], c, m, from, until);
    }
  }

  /** Whatever the client opens in the interval fits into the plan. */
  ghost predicate AllFit(es: seq<Request>, c: Client, m: nat, from: Time, until: Time, future: Plan) {
    forall i :: 0 <= i < |es| && es[i].client == c && from <= es[i].at <= until ==> Fits(future, es[i], m)
  }

  lemma {:induction false} GrantedPlusAllowance(es: seq<Request>, c: Client, m: nat, from: Time, until: Time,
                                                future: Plan)
    requires m >= 1 && InOrder(es) && Antitone(future) && AllFit(es, c, m, from, until, future)
    requires forall i :: 0 <= i < |es| ==> es[i].at <= until
    ensures Granted(es, c, m, from, until) + Allowance(TableAfter(es), c, m, from, future) <= Most(m, from, future)
  {
    if es == [] {
    } else if es[|es| - 1].at < from {
      NothingGrantedYet(es, c, m, from, until);
      if c in TableAfter(es) {
        CountsArePositive(es, c);
      }
      AllowanceAtMost(TableAfter(es), c, m, from, future);
    } else {
      var n := |es| - 1;
      GrantedPlusAllowance(es[..n], c, m, from, until, future);
      AllowancePays(TableAfter(es[..n]), es[n], c, m, from, future);
    }
  }

  lemma {:induction false} GrantedAtMost(es: seq<Request>, c: Client, m: nat, from: Time, until: Time, future: Plan)
    requires m >= 1 && InOrder(es) && Antitone(future) && AllFit(es, c, m, from, until, future)
    ensures Granted(es, c, m, from, until) <= Most(m, from, future)
  {
    if es == [] {
    } else if es[|es| - 1].at > until {
      GrantedAtMost(es[..|es| - 1], c, m, from, until, future);
    } else {
      GrantedPlusAllowance(es, c, m, from, until, future);
    }
  }

  // ---------------------------------------------------------------- windows of one length

  /** A whole maximum for every window. */
  function Full(m: nat, w: nat, until: Time): Plan {
    t => m * Windows(t, until, w)
  }

  lemma FullIsAntitone(m: nat, w: nat, until: Time)
    ensures Antitone(Full(m, w, until))
  {
    forall t, t' | t <= t'
      ensures Full(m, w, until)(t') <= Full(m, w, until)(t)
    {
      WindowsMonotone(t, t', until, w);
      ProductMonotone(m, Windows(t', until, w), Windows(t, until, w));
    }
  }

  lemma FitsFull(r: Request, m: nat, w: nat, until: Time)
    requires m >= 1 && r.at <= until && r.windowMs >= w
    ensures Fits(Full(m, w, until), r, m)
  {
    var next := r.at + r.windowMs + 1;
    WindowsMonotone(r.at + w + 1, next, until, w);
    Product(m, Windows(next, until, w), Windows(r.at, until, w));
  }

  /** The most admissions in a closed interval of the given length. */
  function Sharp(m: int, w: nat, length: nat): int {
    var k := length / (w + 1);
    if length % (w + 1) == 0 then m * (k + 1) else m * (k + 2) - 1
  }

  lemma QuotientBefore(length: nat, w: nat)
    requires length > 0
    ensures (length - 1) / (w + 1) == length / (w + 1) - (if length % (w + 1) == 0 then 1 else 0)
  {
    var q, r := length / (w + 1), length % (w + 1);
    assert length == q * (w + 1) + r;
    if r == 0 {
      assert length - 1 == (q - 1) * (w + 1) + w;
      QuotientIs(length - 1, w + 1, q - 1, w);
    } else {
      QuotientIs(length - 1, w + 1, q, r - 1);
    }
  }

  /** The windows of an interval, and of the same interval without its first instant. */
  lemma {:induction false} WindowsOfInterval(from: Time, length: nat, w: nat)
    ensures var k := length / (w + 1);
            && Windows(from, from + length, w) == k + 1
            && Windows(from + 1, from + length, w) == if length % (w + 1) == 0 then k else k + 1
  {
    WindowsClosedForm(from, length, w);
    if length > 0 {
      WindowsClosedForm(from + 1, length - 1, w);
      QuotientBefore(length, w);
    } else {
      QuotientIs(0, w + 1, 0, 0);
    }
  }

  lemma SharpArithmetic(m: int, k: int)
    requires m >= 1
    ensures m * (k + 1) == Max(m * (k + 1), m - 1 + m * k)
    ensures m * (k + 2) - 1 == m - 1 + m * (k + 1) == Max(m * (k + 1), m - 1 + m * (k + 1))
  {
    assert m * (k + 1) == m * k + m && m * (k + 2) == m * k + 2 * m;
  }

  /** Which of the two ways to spend an interval is the better one. */
  lemma SharpIs(m: nat, from: Time, length: nat, w: nat)
    requires m >= 1
    ensures Sharp(m, w, length) == if length % (w + 1) == 0 then m * Windows(from, from + length, w)
                                   else m - 1 + m * Windows(from + 1, from + length, w)
    ensures Sharp(m, w, length) == Most(m, from, Full(m, w, from + length))
  {
    WindowsOfInterval(from, length, w);
    SharpArithmetic(m, length / (w + 1));
  }

  /**
   The sliding-interval bound. For any trace, any mix of limiters whose windows (for this client) are
   all at least `w`, and any maximum `m`, a closed interval of the given length sees at most
   `Sharp(m, w, length)` admissions of the client through limiters of maximum at most `m`.
   */
  lemma SlidingBound(es: seq<Request>, c: Client, m: nat, from: Time, length: nat, w: nat)
    requires m >= 1 && InOrder(es) && WindowsAtLeast(es, c, m, w, w)
    ensures Granted(es, c, m, from, from + length) <= Sharp(m, w, length)
  {
    var until := from + length;
    FullIsAntitone(m, w, until);
    forall i | 0 <= i < |es| && es[i].client == c && from <= es[i].at <= until
      ensures Fits(Full(m, w, until), es[i], m)
    {
      FitsFull(es[i], m, w, until);
    }
    GrantedAtMost(es, c, m, from, until, Full(m, w, until));
    SharpIs(m, from, length, w);
  }

  // ---------------------------------------------------------------- shorter windows in the same table

  /**
   In an interval no longer than its own window a limiter opens at most one window, the last one. Other
   limiters, with windows from `w` on, can open all windows before that, and leave it the rest of each.
   */
  function Leftovers(m: nat, w: nat, until: Time): Plan
    requires m >= 1
  {
    t => if until < t then 0 else 1 + (m - 1) * Windows(t, until, w)
  }

  lemma LeftoversAreAntitone(m: nat, w: nat, until: Time)
    requires m >= 1
    ensures Antitone(Leftovers(m, w, until))
  {
    forall t, t' | t <= t'
      ensures Leftovers(m, w, until)(t') <= Leftovers(m, w, until)(t)
    {
      WindowsMonotone(t, t', until, w);
      ProductMonotone(m - 1, Windows(t', until, w), Windows(t, until, w));
    }
  }

  lemma FitsLeftovers(r: Request, m: nat, own: nat, w: nat, until: Time)
    requires m >= 1 && until - own <= r.at <= until && LongEnough(r, m, own, w)
    ensures Fits(Leftovers(m, w, until), r, m)
  {
    var next, rest := r.at + r.windowMs + 1, Windows(r.at + w + 1, until, w);
    WindowsMonotone(r.at + w + 1, next, until, w);
    ProductMonotone(m - 1, Windows(next, until, w), rest);
    Distribute(m - 1, rest);
    ProductMonotone(m - 1, 0, rest);
  }

  /** The most admissions through one limiter, beside limiters with windows from `w` on. */
  function SharedSharp(m: int, w: nat, length: nat): int {
    m + (m - 1) * ((length + w) / (w + 1))
  }

  lemma WindowsAfterFirst(from: Time, length: nat, w: nat)
    ensures Windows(from + 1, from + length, w) == (length + w) / (w + 1)
  {
    if length == 0 {
      QuotientIs(w, w + 1, 0, w);
    } else {
      WindowsClosedForm(from + 1, length - 1, w);
      var q, r := (length - 1) / (w + 1), (length - 1) % (w + 1);
      assert length - 1 == q * (w + 1) + r;
      assert length + w == (q + 1) * (w + 1) + r;
      QuotientIs(length + w, w + 1, q + 1, r);
    }
  }

  lemma SharedSharpIs(m: nat, from: Time, length: nat, w: nat)
    requires m >= 1
    ensures SharedSharp(m, w, length) == Most(m, from, Leftovers(m, w, from + length))
  {
    var rest, all := Windows(from + 1, from + length, w), Windows(from, from + length, w);
    WindowsAfterFirst(from, length, w);
    WindowsMonotone(from + 1, from + w + 1, from + length, w);
    ProductMonotone(m - 1, all, rest + 1);
    Distribute(m - 1, rest);
    assert length == 0 ==> rest == 0 && all == 1;
    assert (m - 1) * 0 == 0;
  }

  /**
   What sharing the table costs. If the limiters of maximum at most `m` have windows of at least `own`,
   and the others the client goes through have windows of at least `w`, an interval no longer than `own`
   sees at most `SharedSharp(m, w, length)` admissions through the former.
   */
  lemma SharedBound(es: seq<Request>, c: Client, m: nat, own: nat, w: nat, from: Time, length: nat)
    requires m >= 1 && length <= own && InOrder(es) && WindowsAtLeast(es, c, m, own, w)
    ensures Granted(es, c, m, from, from + length) <= SharedSharp(m, w, length)
  {
    var until := from + length;
    LeftoversAreAntitone(m, w, until);
    forall i | 0 <= i < |es| && es[i].client == c && from <= es[i].at <= until
      ensures Fits(Leftovers(m, w, until), es[i], m)
    {
      FitsLeftovers(es[i], m, own, w, until);
    }
    GrantedAtMost(es, c, m, from, until, Leftovers(m, w, until));
    SharedSharpIs(m, from, length, w);
  }

  // ---------------------------------------------------------------- replaying a trace

  function Repeat(r: Request, n: nat): seq<Request> {
    if n == 0 then [] else [r] + Repeat(r, n - 1)
  }

  // From its front: what a piece of traffic does depends on the state it meets only.

  /** The table, and the admissions counted so far. */
  datatype Tally = Tally(table: Table, granted: nat)

  function TallyOne(t: Tally, r: Request, c: Client, m: int, from: Time, until: Time): Tally {
    Tally(Update(t.table, r),
          t.granted + if r.client == c && r.maxRequests <= m && from <= r.at <= until && Admits(t.table, r)
                      then 1 else 0)
  }

  function TallyAll(t: Tally, es: seq<Request>, c: Client, m: int, from: Time, until: Time): Tally
    decreases es
  {
    if es == [] then t else TallyAll(TallyOne(t, es[0], c, m, from, until), es[1..], c, m, from, until)
  }

  lemma {:induction false} TallyJoins(t: Tally, es: seq<Request>, fs: seq<Request>, c: Client, m: int,
                                      from: Time, until: Time)
    ensures TallyAll(t, es + fs, c, m, from, until)
         == TallyAll(TallyAll(t, es, c, m, from, until), fs, c, m, from, until)
    decreases es
  {
    if es == [] {
      assert es + fs == fs;
    } else {
      assert (es + fs)[1..] == es[1..] + fs;
      TallyJoins(TallyOne(t, es[0], c, m, from, until), es[1..], fs, c, m, from, until);
    }
  }

  lemma {:induction false} TallyIsGranted(es: seq<Request>, c: Client, m: int, from: Time, until: Time)
    ensures TallyAll(Tally(map[], 0), es, c, m, from, until)
         == Tally(TableAfter(es), Granted(es, c, m, from, until))
  {
    if es == [] {
    } else {
      var n := |es| - 1;
      TallyIsGranted(es[..n], c, m, from, until);
      assert es == es[..n] + [es[n]];
      TallyJoins(Tally(map[], 0), es[..n], [es[n]], c, m, from, until);
    }
  }

  /** What a trace goes on to get after a first part that leaves `t`. */
  lemma {:induction false} GrantedAfter(es: seq<Request>, fs: seq<Request>, t: Tally, c: Client, m: int,
                                        from: Time, until: Time)
    requires TallyAll(Tally(map[], 0), es, c, m, from, until) == t
    ensures Granted(es + fs, c, m, from, until) == TallyAll(t, fs, c, m, from, until).granted
  {
    TallyIsGranted(es + fs, c, m, from, until);
    TallyJoins(Tally(map[], 0), es, fs, c, m, from, until);
  }

  /** While the window is open and its count below the maximum, everything is admitted. */
  lemma {:induction false} TallyRepeat(t: Tally, r: Request, n: nat, from: Time, until: Time)
    requires from <= r.at <= until && !Opens(t.table, r)
    requires t.table[r.client].count + n <= r.maxRequests
    ensures var entry := t.table[r.client];
            TallyAll(t, Repeat(r, n), r.client, r.maxRequests, from, until)
            == Tally(t.table[r.client := Entry(entry.count + n, entry.resetTime)], t.granted + n)
    decreases n
  {
    if n == 0 {
    } else {
      var next := TallyOne(t, r, r.client, r.maxRequests, from, until);
      TallyRepeat(next, r, n - 1, from, until);
      assert Repeat(r, n)[1..] == Repeat(r, n - 1);
    }
  }

  /** One burst: the first request opens a window, the others use it up. */
  lemma {:induction false} TallyBurst(t: Tally, r: Request, from: Time, until: Time)
    requires r.maxRequests >= 1 && r.windowMs >= 0 && from <= r.at <= until && Opens(t.table, r)
    ensures TallyAll(t, Repeat(r, r.maxRequests), r.client, r.maxRequests, from, until)
         == Tally(t.table[r.client := Entry(r.maxRequests, r.at + r.windowMs)], t.granted + r.maxRequests)
  {
    var n := r.maxRequests - 1;
    TallyRepeat(TallyOne(t, r, r.client, r.maxRequests, from, until), r, n, from, until);
    assert Repeat(r, n + 1)[1..] == Repeat(r, n);
  }

  /** A request of client `c` through the limiter (m, own) or the limiter (other, w). */
  predicate OfTwo(r: Request, c: Client, m: int, own: int, other: int, w: int) {
    r == Request(c, m, own, r.at) || r == Request(c, other, w, r.at)
  }

  /** An ordered trace of the two limiters, all of it at times in [from, until]. */
  ghost predicate Piece(es: seq<Request>, c: Client, m: int, own: int, other: int, w: int, from: Time, until: Time) {
    InOrder(es) && forall i :: 0 <= i < |es| ==> from <= es[i].at <= until && OfTwo(es[i], c, m, own, other, w)
  }

  lemma PiecesJoin(es: seq<Request>, fs: seq<Request>, c: Client, m: int, own: int, other: int, w: int,
                   from: Time, at: Time, until: Time)
    requires Piece(es, c, m, own, other, w, from, at) && Piece(fs, c, m, own, other, w, at, until)
    requires from <= at <= until
    ensures Piece(es + fs, c, m, own, other, w, from, until)
  {
  }

  lemma {:induction false} RepeatIsPiece(r: Request, n: nat, c: Client, m: int, own: int, other: int, w: int)
    requires OfTwo(r, c, m, own, other, w)
    ensures Piece(Repeat(r, n), c, m, own, other, w, r.at, r.at)
  {
    if n == 0 {
    } else {
      RepeatIsPiece(r, n - 1, c, m, own, other, w);
    }
  }

  /** One request ahead of an interval, and the rest of its window at the window's last instant. */
  function Opening(c: Client, m: nat, own: nat): seq<Request>
    requires m >= 1
  {
    [Request(c, m, own, 0)] + Repeat(Request(c, m, own, own), m - 1)
  }

  lemma {:induction false} TallyOpening(c: Client, m: nat, own: nat, until: Time)
    requires m >= 1 && 1 <= own <= until
    ensures TallyAll(Tally(map[], 0), Opening(c, m, own), c, m, own, until) == Tally(map[c := Entry(m, own)], m - 1)
  {
    var first, rest := [Request(c, m, own, 0)], Repeat(Request(c, m, own, own), m - 1);
    TallyJoins(Tally(map[], 0), first, rest, c, m, own, until);
    assert TallyAll(Tally(map[], 0), first, c, m, own, until) == Tally(map[c := Entry(1, own)], 0);
    TallyRepeat(Tally(map[c := Entry(1, own)], 0), Request(c, m, own, own), m - 1, own, until);
  }

  lemma {:induction false} OpeningThen(fs: seq<Request>, c: Client, m: nat, own: nat, until: Time, gain: int)
    requires m >= 1 && 1 <= own <= until
    requires TallyAll(Tally(map[c := Entry(m, own)], m - 1), fs, c, m, own, until).granted == m - 1 + gain
    ensures Granted(Opening(c, m, own) + fs, c, m, own, until) == m - 1 + gain
  {
    TallyOpening(c, m, own, until);
    GrantedAfter(Opening(c, m, own), fs, Tally(map[c := Entry(m, own)], m - 1), c, m, own, until);
  }

  lemma {:induction false} OpeningIsPiece(c: Client, m: nat, own: nat, other: int, w: int)
    requires m >= 1
    ensures Piece(Opening(c, m, own), c, m, own, other, w, 0, own)
  {
    var rest := Repeat(Request(c, m, own, own), m - 1);
    RepeatIsPiece(Request(c, m, own, own), m - 1, c, m, own, other, w);
    PiecesJoin([Request(c, m, own, 0)], rest, c, m, own, other, w, 0, own, own);
  }

  lemma PieceWidens(es: seq<Request>, c: Client, m: int, own: int, other: int, w: int,
                    from: Time, from': Time, until: Time)
    requires Piece(es, c, m, own, other, w, from, until) && from' <= from
    ensures Piece(es, c, m, own, other, w, from', until)
  {
  }

  /** An opening followed by a trace that gains so much after it. */
  lemma {:induction false} OpeningJoins(fs: seq<Request>, c: Client, m: nat, own: nat, other: int, w: int,
                                        until: Time, gain: int)
    returns (es: seq<Request>)
    requires m >= 1 && 1 <= own <= until && Piece(fs, c, m, own, other, w, own + 1, until)
    requires TallyAll(Tally(map[c := Entry(m, own)], m - 1), fs, c, m, own, until).granted == m - 1 + gain
    ensures Piece(es, c, m, own, other, w, 0, until) && Granted(es, c, m, own, until) == m - 1 + gain
  {
    es := Opening(c, m, own) + fs;
    OpeningThen(fs, c, m, own, until, gain);
    OpeningIsPiece(c, m, own, other, w);
    PieceWidens(fs, c, m, own, other, w, own + 1, own, until);
    PiecesJoin(Opening(c, m, own), fs, c, m, own, other, w, 0, own, until);
  }

  // ---------------------------------------------------------------- one limiter alone

  /** Bursts of `m` requests in [first, until], each as soon as the window of the one before has ended. */
  function Bursts(c: Client, m: nat, w: nat, first: Time, until: Time): seq<Request>
    decreases until - first
  {
    if until < first then []
    else Repeat(Request(c, m, w, first), m) + Bursts(c, m, w, first + w + 1, until)
  }

  lemma {:induction false} TallyBursts(t: Tally, c: Client, m: nat, w: nat, first: Time, from: Time, until: Time)
    requires m >= 1 && from <= first && Opens(t.table, Request(c, m, w, first))
    ensures TallyAll(t, Bursts(c, m, w, first, until), c, m, from, until).granted
         == t.granted + m * Windows(first, until, w)
    decreases until - first
  {
    if until < first {
    } else {
      var r := Request(c, m, w, first);
      var next := TallyAll(t, Repeat(r, m), c, m, from, until);
      TallyBurst(t, r, from, until);
      TallyBursts(next, c, m, w, first + w + 1, from, until);
      TallyJoins(t, Repeat(r, m), Bursts(c, m, w, first + w + 1, until), c, m, from, until);
      Distribute(m, Windows(first + w + 1, until, w));
    }
  }

  lemma {:induction false} BurstsArePiece(c: Client, m: nat, w: nat, first: Time, until: Time)
    ensures Piece(Bursts(c, m, w, first, until), c, m, w, m, w, first, until)
    decreases until - first
  {
    if until < first {
    } else {
      var r := Request(c, m, w, first);
      var rest := Bursts(c, m, w, first + w + 1, until);
      RepeatIsPiece(r, m, c, m, w, m, w);
      BurstsArePiece(c, m, w, first + w + 1, until);
      assert Piece(rest, c, m, w, m, w, first, until);
      PiecesJoin(Repeat(r, m), rest, c, m, w, m, w, first, first, until);
    }
  }

  /** Bursting from the first instant on. */
  lemma {:induction false} BurstsAtOnce(c: Client, m: nat, w: nat, until: nat, gain: int) returns (es: seq<Request>)
    requires m >= 1 && gain == m * Windows(0, until, w)
    ensures Piece(es, c, m, w, m, w, 0, until) && Granted(es, c, m, 0, until) == gain
  {
    es := Bursts(c, m, w, 0, until);
    BurstsArePiece(c, m, w, 0, until);
    TallyIsGranted(es, c, m, 0, until);
    TallyBursts(Tally(map[], 0), c, m, w, 0, 0, until);
  }

  /** Saving most of one window for its last instant, and bursting from then on. */
  lemma {:induction false} BurstsAfterOpening(c: Client, m: nat, w: nat, until: Time, gain: int)
    returns (es: seq<Request>)
    requires m >= 1 && 1 <= w <= until && gain == m * Windows(w + 1, until, w)
    ensures Piece(es, c, m, w, m, w, 0, until) && Granted(es, c, m, w, until) == m - 1 + gain
  {
    TallyBursts(Tally(map[c := Entry(m, w)], m - 1), c, m, w, w + 1, w, until);
    BurstsArePiece(c, m, w, w + 1, until);
    es := OpeningJoins(Bursts(c, m, w, w + 1, until), c, m, w, m, w, until, gain);
  }

  /** The bound is sharp: every maximum, window and length has a trace of one limiter that reaches it. */
  lemma {:induction false} SlidingBoundIsReached(c: Client, m: nat, w: nat, length: nat)
    returns (es: seq<Request>, from: Time)
    requires m >= 1
    ensures InOrder(es) && forall i :: 0 <= i < |es| ==> es[i] == Request(c, m, w, es[i].at)
    ensures Granted(es, c, m, from, from + length) == Sharp(m, w, length)
  {
    var most := Sharp(m, w, length);
    if length % (w + 1) == 0 {
      SharpIs(m, 0, length, w);
      es := BurstsAtOnce(c, m, w, length, most);
      from := 0;
    } else {
      SharpIs(m, w, length, w);
      es := BurstsAfterOpening(c, m, w, w + length, most - (m - 1));
      from := w;
    }
  }

  // ---------------------------------------------------------------- two limiters on one table

  /** Another limiter opens a window, and this one uses up what is left of it. */
  function Leftover(c: Client, m: nat, own: nat, other: int, w: nat, at: Time): seq<Request>
    requires m >= 1
  {
    [Request(c, other, w, at)] + Repeat(Request(c, m, own, at), m - 1)
  }

  /** Such windows one after the other, and in the last one a whole burst of this limiter's own. */
  function SharedBursts(c: Client, m: nat, own: nat, other: int, w: nat, first: Time, until: Time): seq<Request>
    requires m >= 1
    decreases until - first
  {
    if until < first then []
    else if until < first + w + 1 then Repeat(Request(c, m, own, first), m)
    else Leftover(c, m, own, other, w, first) + SharedBursts(c, m, own, other, w, first + w + 1, until)
  }

  lemma {:induction false} TallyLeftover(t: Tally, c: Client, m: nat, own: nat, other: int, w: nat, at: Time,
                                         from: Time, until: Time)
    requires m >= 1 && other > m && from <= at <= until && Opens(t.table, Request(c, other, w, at))
    ensures TallyAll(t, Leftover(c, m, own, other, w, at), c, m, from, until)
         == Tally(t.table[c := Entry(m, at + w)], t.granted + m - 1)
  {
    var opening, rest := Request(c, other, w, at), Repeat(Request(c, m, own, at), m - 1);
    var next := Tally(t.table[c := Entry(1, at + w)], t.granted);
    TallyJoins(t, [opening], rest, c, m, from, until);
    assert TallyAll(t, [opening], c, m, from, until) == next;
    TallyRepeat(next, Request(c, m, own, at), m - 1, from, until);
  }

  /** What they add up to. */
  function SharedGain(m: nat, w: nat, first: Time, until: Time): int
    decreases until - first
  {
    if until < first then 0
    else if until < first + w + 1 then m
    else m - 1 + SharedGain(m, w, first + w + 1, until)
  }

  lemma {:induction false} SharedGainIs(m: nat, w: nat, first: Time, until: Time)
    requires m >= 1 && first <= until
    ensures SharedGain(m, w, first, until) == 1 + (m - 1) * Windows(first, until, w)
    decreases until - first
  {
    if until < first + w + 1 {
      assert Windows(first, until, w) == 1;
    } else {
      SharedGainIs(m, w, first + w + 1, until);
      Distribute(m - 1, Windows(first + w + 1, until, w));
    }
  }

  lemma {:induction false} TallySharedBursts(t: Tally, c: Client, m: nat, own: nat, other: int, w: nat,
                                             first: Time, from: Time, until: Time)
    requires m >= 1 && other > m && from <= first && Opens(t.table, Request(c, other, w, first))
    ensures TallyAll(t, SharedBursts(c, m, own, other, w, first, until), c, m, from, until).granted
         == t.granted + SharedGain(m, w, first, until)
    decreases until - first
  {
    if until < first {
    } else if until < first + w + 1 {
      TallyBurst(t, Request(c, m, own, first), from, until);
    } else {
      var next := Tally(t.table[c := Entry(m, first + w)], t.granted + m - 1);
      var rest := SharedBursts(c, m, own, other, w, first + w + 1, until);
      TallyLeftover(t, c, m, own, other, w, first, from, until);
      TallySharedBursts(next, c, m, own, other, w, first + w + 1, from, until);
      TallyJoins(t, Leftover(c, m, own, other, w, first), rest, c, m, from, until);
    }
  }

  lemma {:induction false} LeftoverIsPiece(c: Client, m: nat, own: nat, other: int, w: nat, at: Time)
    requires m >= 1
    ensures Piece(Leftover(c, m, own, other, w, at), c, m, own, other, w, at, at)
  {
    var rest := Repeat(Request(c, m, own, at), m - 1);
    RepeatIsPiece(Request(c, m, own, at), m - 1, c, m, own, other, w);
    PiecesJoin([Request(c, other, w, at)], rest, c, m, own, other, w, at, at, at);
  }

  lemma {:induction false} SharedBurstsArePiece(c: Client, m: nat, own: nat, other: int, w: nat,
                                                first: Time, until: Time)
    requires m >= 1
    ensures Piece(SharedBursts(c, m, own, other, w, first, until), c, m, own, other, w, first, until)
    decreases until - first
  {
    if until < first {
    } else if until < first + w + 1 {
      RepeatIsPiece(Request(c, m, own, first), m, c, m, own, other, w);
    } else {
      var rest := SharedBursts(c, m, own, other, w, first + w + 1, until);
      LeftoverIsPiece(c, m, own, other, w, first);
      SharedBurstsArePiece(c, m, own, other, w, first + w + 1, until);
      assert Piece(rest, c, m, own, other, w, first, until);
      PiecesJoin(Leftover(c, m, own, other, w, first), rest, c, m, own, other, w, first, first, until);
    }
  }

  lemma {:induction false} SharedBurstsAtOnce(c: Client, m: nat, own: nat, other: int, w: nat)
    returns (es: seq<Request>)
    requires m >= 1 && other > m
    ensures Piece(es, c, m, own, other, w, 0, 0) && Granted(es, c, m, 0, 0) == m
  {
    es := SharedBursts(c, m, own, other, w, 0, 0);
    SharedBurstsArePiece(c, m, own, other, w, 0, 0);
    TallyIsGranted(es, c, m, 0, 0);
    TallySharedBursts(Tally(map[], 0), c, m, own, other, w, 0, 0, 0);
  }

  lemma {:induction false} SharedBurstsAfterOpening(c: Client, m: nat, own: nat, other: int, w: nat, until: Time)
    returns (es: seq<Request>)
    requires m >= 1 && other > m && 1 <= own <= until
    ensures Piece(es, c, m, own, other, w, 0, until)
    ensures Granted(es, c, m, own, until) == m - 1 + SharedGain(m, w, own + 1, until)
  {
    TallySharedBursts(Tally(map[c := Entry(m, own)], m - 1), c, m, own, other, w, own + 1, own, until);
    SharedBurstsArePiece(c, m, own, other, w, own + 1, until);
    es := OpeningJoins(SharedBursts(c, m, own, other, w, own + 1, until), c, m, own, other, w, until,
                       SharedGain(m, w, own + 1, until));
  }

  lemma {:induction false} SharedSharpIsGained(m: nat, w: nat, from: Time, length: nat)
    requires m >= 1
    ensures SharedSharp(m, w, length)
         == if length == 0 then m else m - 1 + SharedGain(m, w, from + 1, from + length)
  {
    WindowsAfterFirst(from, length, w);
    if length == 0 {
      assert (m - 1) * 0 == 0;
    } else {
      SharedGainIs(m, w, from + 1, from + length);
    }
  }

  /**
   This bound is sharp too: whatever the windows and maxima of two limiters, the length and the client,
   there is a trace of just these two that reaches it.
   */
  lemma {:induction false} SharedBoundIsReached(c: Client, m: nat, own: nat, other: int, w: nat, length: nat)
    returns (es: seq<Request>, from: Time)
    requires m >= 1 && other > m && length <= own
    ensures InOrder(es) && forall i :: 0 <= i < |es| ==> OfTwo(es[i], c, m, own, other, w)
    ensures Granted(es, c, m, from, from + length) == SharedSharp(m, w, length)
  {
    SharedSharpIsGained(m, w, own, length);
    if length == 0 {
      es := SharedBurstsAtOnce(c, m, own, other, w);
      from := 0;
    } else {
      es := SharedBurstsAfterOpening(c, m, own, other, w, own + length);
      from := own;
    }
  }

  // ---------------------------------------------------------------- what a limit is worth

  function GrantedWithin(es: seq<Request>, c: Client, m: int, from: Time, length: nat): nat {
    Granted(es, c, m, from, from + length)
  }

  /** No client gets more than `b` admissions through limiters of maximum at most `m`. */
  ghost predicate AlwaysAtMost(m: int, own: nat, w: nat, length: nat, b: int) {
    forall es, c, from :: InOrder(es) && WindowsAtLeast(es, c, m, own, w) ==> GrantedWithin(es, c, m, from, length) <= b
  }

  lemma {:induction false} Refuted(es: seq<Request>, c: Client, m: int, own: nat, w: nat, from: Time, length: nat,
                                   got: int, b: int)
    requires InOrder(es) && WindowsAtLeast(es, c, m, own, w) && Granted(es, c, m, from, from + length) == got > b
    ensures !AlwaysAtMost(m, own, w, length, b)
  {
    assert GrantedWithin(es, c, m, from, length) > b;
  }

  /** Exactly which bounds hold when all windows are at least `w`, for intervals of any length. */
  lemma {:induction false} BoundHoldsExactlyWhen(m: nat, w: nat, length: nat, b: int)
    requires m >= 1
    ensures AlwaysAtMost(m, w, w, length, b) <==> Sharp(m, w, length) <= b
  {
    var most := Sharp(m, w, length);
    if most <= b {
      forall es, c, from | InOrder(es) && WindowsAtLeast(es, c, m, w, w)
        ensures GrantedWithin(es, c, m, from, length) <= b
      {
        SlidingBound(es, c, m, from, length, w);
      }
    } else {
      var es, from := SlidingBoundIsReached("", m, w, length);
      Refuted(es, "", m, w, w, from, length, most, b);
    }
  }

  /** Exactly which bounds hold when other limiters may open windows from `w` on. */
  lemma {:induction false} SharedBoundHoldsExactlyWhen(m: nat, own: nat, w: nat, length: nat, b: int)
    requires m >= 1 && w <= own && length <= own
    ensures AlwaysAtMost(m, own, w, length, b) <==> SharedSharp(m, w, length) <= b
  {
    var most := SharedSharp(m, w, length);
    if most <= b {
      forall es, c, from | InOrder(es) && WindowsAtLeast(es, c, m, own, w)
        ensures GrantedWithin(es, c, m, from, length) <= b
      {
        SharedBound(es, c, m, own, w, from, length);
      }
    } else {
      var es, from := SharedBoundIsReached("", m, own, m + 1, w, length);
      Refuted(es, "", m, own, w, from, length, most, b);
    }
  }

  lemma SmallQuotient(length: nat, w: nat)
    ensures length <= w <==> length / (w + 1) == 0
    ensures length / (w + 1) >= 0
  {
    var q, r := length / (w + 1), length % (w + 1);
    assert length == q * (w + 1) + r;
    if length <= w {
      QuotientIs(length, w + 1, 0, length);
    }
    assert q == 0 ==> length == r;
  }

  lemma SharpValues(m: nat, w: nat, length: nat)
    requires m >= 1
    ensures Sharp(m, w, length) <= m <==> length == 0 || (m == 1 && length <= w)
  {
    var q, r := length / (w + 1), length % (w + 1);
    assert length == q * (w + 1) + r;
    SmallQuotient(length, w);
    assert m * (q + 1) == m * q + m && m * (q + 2) == m * q + 2 * m;
    if q >= 1 {
      ProductMonotone(m, 1, q);
    }
  }

  /**
   "m requests per window" as a literal claim about every interval of a given length, when all limiters
   of maximum at most `m` are counted together and no window is shorter than `w`: it holds exactly for
   single instants, and for a maximum of one in intervals no longer than `w`.
   */
  lemma LimitKeptExactlyWhen(m: nat, w: nat, length: nat)
    requires m >= 1
    ensures AlwaysAtMost(m, w, w, length, m) <==> length == 0 || (m == 1 && length <= w)
  {
    BoundHoldsExactlyWhen(m, w, length, m);
    SharpValues(m, w, length);
  }

  lemma WindowsInside(w: nat, length: nat)
    ensures (length + w) / (w + 1) <= 0 <==> length == 0
    ensures (length + w) / (w + 1) <= 1 <==> length <= w + 1
    ensures (length + w) / (w + 1) >= 0
  {
    var q, r := (length + w) / (w + 1), (length + w) % (w + 1);
    assert length + w == q * (w + 1) + r;
    MultipleApart(q, w + 1);
    MultipleApart(q - 1, w + 1);
    assert (q - 1) * (w + 1) == q * (w + 1) - (w + 1);
  }

  lemma ProductAtMost(k: nat, n: nat)
    ensures k * n <= 0 <==> k == 0 || n == 0
    ensures k * n <= k <==> k == 0 || n <= 1
  {
    if n >= 1 {
      ProductMonotone(k, 1, n);
    }
    if n >= 2 {
      ProductMonotone(k, 2, n);
    }
  }

  /**
   The same claim about one limiter, in an interval no longer than its own window, beside limiters with
   windows from `w` on: a maximum of one is always kept, any other only for single instants. What may be
   relied on otherwise, twice the limit less one, holds exactly when the interval is at most one longer
   than the shortest window in the table.
   */
  lemma SharedLimitKeptExactlyWhen(m: nat, own: nat, w: nat, length: nat)
    requires m >= 1 && w <= own && length <= own
    ensures AlwaysAtMost(m, own, w, length, m) <==> m == 1 || length == 0
    ensures AlwaysAtMost(m, own, w, length, 2 * m - 1) <==> m == 1 || length <= w + 1
  {
    SharedBoundHoldsExactlyWhen(m, own, w, length, m);
    SharedBoundHoldsExactlyWhen(m, own, w, length, 2 * m - 1);
    WindowsInside(w, length);
    ProductAtMost(m - 1, (length + w) / (w + 1));
  }

  // ---------------------------------------------------------------- the deployed routes

  /** A request of `GET /balances/:address` or of `POST /request`. */
  predicate IsDeployed(r: Request) {
    (r.maxRequests == 10 && r.windowMs == 60000) || (r.maxRequests == 3 && r.windowMs == 300000)
  }

  ghost predicate Deployed(es: seq<Request>) {
    forall i :: 0 <= i < |es| ==> IsDeployed(es[i])
  }

  lemma ThirteenIs()
    ensures SharedSharp(3, 60000, 300000) == 13
  {
    QuotientIs(360000, 60001, 5, 59995);
  }

  /**
   What the faucet's "3 requests per 5 minutes" comes to. The balance queries' limiter shares the table
   and its windows are a minute long, so that five minutes see up to thirteen faucet requests of one
   client: never more, and there is a trace of the two routes that gets them.
   */
  lemma {:induction false} FaucetLimitIsThirteen(c: Client) returns (worst: seq<Request>, at: Time)
    ensures forall es, from :: InOrder(es) && Deployed(es) ==> GrantedWithin(es, c, 3, from, 300000) <= 13
    ensures InOrder(worst) && Deployed(worst) && GrantedWithin(worst, c, 3, at, 300000) == 13
  {
    ThirteenIs();
    forall es, from | InOrder(es) && Deployed(es)
      ensures GrantedWithin(es, c, 3, from, 300000) <= 13
    {
      SharedBound(es, c, 3, 300000, 60000, from, 300000);
    }
    worst, at := SharedBoundIsReached(c, 3, 300000, 10, 60000, 300000);
  }
}
