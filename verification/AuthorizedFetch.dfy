/**
 The retry recursion of `fetchWithAuth`. One invocation sends at most one
 request; a 401 and a busy server can make it invoke itself with other options.
 The surroundings are a script that says, for the n-th invocation of the chain,
 what it finds and what the server answers. Sleeping times are in milliseconds.
 */
module AuthorizedFetch {

  datatype RetryAfter =
    | NoHeader               // absent or empty
    | Seconds(value: real)
    | Date(fromNow: real)    // a date, as milliseconds from now
    | Unreadable

  datatype Reply =
    | Response(status: int, overload: bool, retryAfter: RetryAfter)   // overload: the body says SERVICE_OVERLOAD
    | NetworkError

  /** What one invocation meets. */
  datatype Scene = Scene(
    invalidated: bool,        // authSessionInvalidated is set
    expiring: bool,           // the stored token is due for a refresh
    earlyRefresh: bool,       // whether the refresh before the request would succeed
    reply: Reply,
    lateRefresh: bool)        // whether the refresh after a 401 would succeed

  type Script = nat -> Scene

  datatype Request = Request(idempotent: bool, publicAuth: bool, refreshEndpoint: bool)   // GET or HEAD; the endpoint

  datatype Options = Options(isRetry: bool, skipAuthRefresh: bool, busyCount: int)

  datatype Final = Unauthorised | Answer(reply: Reply)

  /** What a chain of invocations has done. */
  datatype Trace = Trace(sends: nat, refreshes: nat, slept: real, final: Final)

  const DEFAULTS := Options(false, false, 0)
  const MAX_BUSY := 2
  const MAX_DELAY_MS: real := 3000.0

  function Delay(busyCount: int, header: RetryAfter): real {
    match header
    case NoHeader => 300.0 * (busyCount + 1) as real
    case Seconds(value) => if value * 1000.0 > 0.0 then value * 1000.0 else 0.0
    case Date(fromNow) => if fromNow > 0.0 then fromNow else 0.0
    case Unreadable => 300.0 * (busyCount + 1) as real
  }

  predicate RefreshesFirst(q: Request, o: Options, scene: Scene) {
    !o.isRetry && !o.skipAuthRefresh && !q.publicAuth && scene.expiring
  }

  predicate RefreshesAfter401(q: Request, o: Options, reply: Reply) {
    reply.Response? && reply.status == 401 && !q.refreshEndpoint && !o.isRetry && !o.skipAuthRefresh
  }

  predicate RetriesBusy(q: Request, o: Options, reply: Reply) {
    && reply.Response? && reply.status == 503 && q.idempotent && o.busyCount < MAX_BUSY && reply.overload
    && Delay(o.busyCount, reply.retryAfter) <= MAX_DELAY_MS
  }

  function BusyLeft(o: Options): nat { if o.busyCount < MAX_BUSY then MAX_BUSY - o.busyCount else 0 }

  /**
   The recursion itself. It ends because a 401 retry uses up `isRetry`, even
   though it resets the busy counter, and a busy retry uses up one busy count.
   */
  function Fetch(q: Request, o: Options, script: Script, n: nat): Trace
    decreases !o.isRetry, BusyLeft(o)
  {
    var scene := script(n);
    if scene.invalidated && !q.publicAuth then Trace(0, 0, 0.0, Unauthorised) else
    var early := if RefreshesFirst(q, o, scene) then 1 else 0;
    if early == 1 && !scene.earlyRefresh then Trace(0, 1, 0.0, Unauthorised) else
    if RefreshesAfter401(q, o, scene.reply) then
      if scene.lateRefresh then
        var rest := Fetch(q, Options(true, false, 0), script, n + 1);
        Trace(1 + rest.sends, early + 1 + rest.refreshes, rest.slept, rest.final)
      else Trace(1, early + 1, 0.0, Answer(scene.reply))
    else if RetriesBusy(q, o, scene.reply) then
      var rest := Fetch(q, o.(busyCount := o.busyCount + 1), script, n + 1);
      Trace(1 + rest.sends, early + rest.refreshes, Delay(o.busyCount, scene.reply.retryAfter) + rest.slept, rest.final)
    else Trace(1, early, 0.0, Answer(scene.reply))
  }

  predicate MayRetry401(q: Request, o: Options) { !q.refreshEndpoint && !o.isRetry && !o.skipAuthRefresh }

  /** The most busy retries a chain can make: those left now, and two more after a 401 retry. */
  function BusyRetries(q: Request, o: Options): nat {
    if q.idempotent then BusyLeft(o) + (if MayRetry401(q, o) then MAX_BUSY else 0) else 0
  }

  function MostSends(q: Request, o: Options): nat {
    1 + BusyRetries(q, o) + if MayRetry401(q, o) then 1 else 0
  }

  /** Whatever the responses: requests, refreshes and sleeping time are bounded. */
  lemma {:induction false} FetchBounded(q: Request, o: Options, script: Script, n: nat)
    ensures var t := Fetch(q, o, script, n);
      && t.sends <= MostSends(q, o)
      && (o.busyCount >= 0 ==> t.slept >= 0.0) && t.slept <= MAX_DELAY_MS * BusyRetries(q, o) as real
      && t.refreshes <= (if o.isRetry || o.skipAuthRefresh then 0 else (if q.idempotent then BusyLeft(o) else 0) + 2)
    decreases !o.isRetry, BusyLeft(o)
  {
    var scene := script(n);
    if RefreshesAfter401(q, o, scene.reply) {
      FetchBounded(q, Options(true, false, 0), script, n + 1);
    } else if RetriesBusy(q, o, scene.reply) {
      FetchBounded(q, o.(busyCount := o.busyCount + 1), script, n + 1);
    }
  }

  /**
   One call from the application: at most 6 requests and 12 s of waiting for GET and HEAD, at most 2 requests otherwise.
   */
  lemma CallBounded(q: Request, script: Script)
    ensures var t := Fetch(q, DEFAULTS, script, 0);
      && t.sends <= (if q.idempotent then 6 else 2)
      && t.slept <= (if q.idempotent then 12_000.0 else 0.0)
      && t.refreshes <= (if q.idempotent then 4 else 2)
  {
    FetchBounded(q, DEFAULTS, script, 0);
  }

  // ---------- the bounds are reached ----------

  /** A server that answers busy, busy, 401, busy, busy, and then anything. */
  function WorstReply(n: nat, last: Reply): Reply {
    if n == 2 then Response(401, false, NoHeader) else if n < 5 then Response(503, true, Seconds(3.0)) else last
  }

  ghost predicate IsWorst(script: Script, last: Reply) {
    forall n: nat :: script(n) == Scene(false, false, true, WorstReply(n, last), true)
  }

  function WorstOptions(n: nat): Options {
    if n <= 2 then Options(false, false, n) else Options(true, false, n - 3)
  }

  lemma WorstStep(script: Script, last: Reply, n: nat, rest: Trace)
    requires n < 5 && IsWorst(script, last)
    requires rest == Fetch(Request(true, false, false), WorstOptions(n + 1), script, n + 1)
    ensures Fetch(Request(true, false, false), WorstOptions(n), script, n) ==
            if n == 2 then Trace(1 + rest.sends, 1 + rest.refreshes, rest.slept, rest.final)
            else Trace(1 + rest.sends, rest.refreshes, 3000.0 + rest.slept, rest.final)
  {
    assert script(n).reply == WorstReply(n, last);
  }

  /** Six requests and 12 s of waiting do happen, so the bounds cannot be lowered. */
  lemma SixRequestsHappen(script: Script, last: Reply)
    requires IsWorst(script, last)
    ensures var t := Fetch(Request(true, false, false), DEFAULTS, script, 0);
      t.sends == 6 && t.slept == 12_000.0 && t.final == Answer(last)
  {
    var n: nat, rest := 5, Fetch(Request(true, false, false), WorstOptions(5), script, 5);
    assert rest == Trace(1, 0, 0.0, Answer(last)) by { assert script(5).reply == last; }
    while n > 0
      invariant n <= 5 && rest == Fetch(Request(true, false, false), WorstOptions(n), script, n)
      invariant rest.sends == 6 - n && rest.final == Answer(last)
      invariant rest.slept == if n <= 2 then 12_000.0 - 3000.0 * n as real else 15_000.0 - 3000.0 * n as real
    {
      WorstStep(script, last, n - 1, rest);
      n, rest := n - 1, Fetch(Request(true, false, false), WorstOptions(n - 1), script, n - 1);
    }
  }

  // ---------- what the answer is ----------

  predicate Retriable(reply: Reply) { reply.Response? && reply.status in {401, 503} }

  /** No request is sent: the session is gone, or the token is due and cannot be refreshed. */
  predicate SessionLost(q: Request, scene: Scene) {
    !q.publicAuth && (scene.invalidated || (scene.expiring && !scene.earlyRefresh))
  }

  /** How the trace of one invocation comes from the trace of the invocation it makes itself, if it makes one. */
  lemma FetchUnfold(q: Request, o: Options, script: Script, n: nat) returns (retries: bool, next: Options)
    ensures var t := Fetch(q, o, script, n);
      if retries then
        var rest := Fetch(q, next, script, n + 1);
        && Retriable(script(n).reply) && t.sends == 1 + rest.sends && t.final == rest.final
        && (o.isRetry ==> next.isRetry) && (o.isRetry == next.isRetry ==> BusyLeft(next) < BusyLeft(o))
      else t.sends <= 1 && (t.final.Answer? ==> t.sends == 1 && t.final == Answer(script(n).reply))
    ensures retries && script(n).reply.status == 401 ==> MayRetry401(q, o) && next.isRetry
    ensures retries && script(n).reply.status != 401 ==> q.idempotent && next.isRetry == o.isRetry
    ensures !retries && Fetch(q, o, script, n).final.Unauthorised? ==>
      Fetch(q, o, script, n).sends == 0 && SessionLost(q, script(n))
    ensures next.isRetry || next.skipAuthRefresh == o.skipAuthRefresh
  {
    var scene := script(n);
    var early := RefreshesFirst(q, o, scene);
    if (scene.invalidated && !q.publicAuth) || (early && !scene.earlyRefresh) {
      retries, next := false, o;
    } else if RefreshesAfter401(q, o, scene.reply) {
      retries, next := scene.lateRefresh, Options(true, false, 0);
    } else {
      retries, next := RetriesBusy(q, o, scene.reply), o.(busyCount := o.busyCount + 1);
    }
  }

  /**
   A chain answers with the reply to its last request, unchanged, and every
   earlier reply was a 401 or a 503. Only a chain that ends without a session
   makes up an answer of its own.
   */
  lemma {:induction false} AnswerIsTheLastReply(q: Request, o: Options, script: Script, n: nat)
    ensures var t := Fetch(q, o, script, n);
      && (t.final.Answer? ==> t.sends > 0 && t.final.reply == script(n + t.sends - 1).reply)
      && (forall k: nat | n <= k < n + t.sends - 1 :: Retriable(script(k).reply))
    decreases !o.isRetry, BusyLeft(o)
  {
    var retries, next := FetchUnfold(q, o, script, n);
    if retries { AnswerIsTheLastReply(q, next, script, n + 1); }
  }

  predicate Is401(reply: Reply) { reply.Response? && reply.status == 401 }

  ghost predicate OneRetryAt(q: Request, o: Options, script: Script, k: nat) {
    var reply := script(k).reply;
    Retriable(reply) && (if reply.status == 401 then MayRetry401(q, o) else q.idempotent)
  }

  /**
   What a chain retries: a 503 only for GET and HEAD, and a 401 at most once,
   never if the call was a retry, skips refreshing, or asks for the refresh itself.
   A made-up 401 means that the session was lost before that request.
   */
  lemma {:induction false} RetriesAre(q: Request, o: Options, script: Script, n: nat)
    ensures var t := Fetch(q, o, script, n);
      && (forall k: nat {:trigger OneRetryAt(q, o, script, k)} | n <= k < n + t.sends - 1 ::
          OneRetryAt(q, o, script, k))
      && (forall j: nat, k: nat | n <= j < k < n + t.sends - 1 :: !(Is401(script(j).reply) && Is401(script(k).reply)))
      && (t.final.Unauthorised? ==> SessionLost(q, script(n + t.sends)))
    decreases !o.isRetry, BusyLeft(o)
  {
    var retries, next := FetchUnfold(q, o, script, n);
    if retries {
      RetriesAre(q, next, script, n + 1);
      OneMoreRetry(q, o, next, script, n, n + Fetch(q, next, script, n + 1).sends);
    }
  }

  lemma OneMoreRetry(q: Request, o: Options, next: Options, script: Script, n: nat, last: nat)
    requires OneRetryAt(q, o, script, n) && (next.isRetry || next.skipAuthRefresh == o.skipAuthRefresh)
    requires if Is401(script(n).reply) then next.isRetry else next.isRetry == o.isRetry
    requires forall k: nat {:trigger OneRetryAt(q, next, script, k)} | n < k < last :: OneRetryAt(q, next, script, k)
    requires forall j: nat, k: nat | n < j < k < last :: !(Is401(script(j).reply) && Is401(script(k).reply))
    ensures forall k: nat {:trigger OneRetryAt(q, o, script, k)} | n <= k < last :: OneRetryAt(q, o, script, k)
    ensures forall j: nat, k: nat | n <= j < k < last :: !(Is401(script(j).reply) && Is401(script(k).reply))
  {
    forall k: nat | n < k < last
      ensures OneRetryAt(q, o, script, k) && !(Is401(script(n).reply) && Is401(script(k).reply))
    {
      assert OneRetryAt(q, next, script, k);
    }
  }

  // ---------- exactly when a request is sent, and when again ----------

  /** A call sends nothing if and only if the session is invalidated, or the token is due and cannot be refreshed. */
  lemma NothingSentExactly(q: Request, o: Options, script: Script, n: nat)
    ensures var t, scene := Fetch(q, o, script, n), script(n);
      t.sends == 0 <==>
      !q.publicAuth
      && (scene.invalidated || (!o.isRetry && !o.skipAuthRefresh && scene.expiring && !scene.earlyRefresh))
  {
    var retries, next := FetchUnfold(q, o, script, n);
  }

  /** No request of a chain leaves while the session is invalidated, unless its endpoint is public. */
  lemma {:induction false} NeverSentWhenInvalidated(q: Request, o: Options, script: Script, n: nat, k: nat)
    requires n <= k < n + Fetch(q, o, script, n).sends
    ensures q.publicAuth || !script(k).invalidated
    decreases !o.isRetry, BusyLeft(o)
  {
    var retries, next := FetchUnfold(q, o, script, n);
    NothingSentExactly(q, o, script, n);
    if k > n { NeverSentWhenInvalidated(q, next, script, n + 1, k); }
  }

  /** Whether one of the requests `n` to `k - 1` was answered 401. */
  predicate Had401(script: Script, n: nat, k: nat)
    requires n <= k
  {
    exists j: nat :: n <= j < k && Is401(script(j).reply)
  }

  /** The busy retries that count at request `k`: those since the 401, if there was one. */
  function BusyAt(busy: int, script: Script, n: nat, k: nat): int
    requires n <= k
    decreases k - n
  {
    if n == k then busy
    else if Is401(script(n).reply) then BusyAt(0, script, n + 1, k)
    else BusyAt(busy + 1, script, n + 1, k)
  }

  /** Request `k` of the chain is followed by another attempt. */
  predicate Again(q: Request, o: Options, script: Script, n: nat, k: nat)
    requires n <= k
  {
    var reply, busy := script(k).reply, BusyAt(o.busyCount, script, n, k);
    && reply.Response?
    && if reply.status == 401 && !q.refreshEndpoint && !o.isRetry && !o.skipAuthRefresh && !Had401(script, n, k)
       then script(k).lateRefresh
       else reply.status == 503 && q.idempotent && reply.overload && busy < 2 && Delay(busy, reply.retryAfter) <= 3000.0
  }

  /** The waiting before requests `n + 1` to `k`. */
  function WaitUntil(busy: int, script: Script, n: nat, k: nat): real
    requires n <= k
    decreases k - n
  {
    if n == k then 0.0
    else
      var reply := script(n).reply;
      if Is401(reply) then WaitUntil(0, script, n + 1, k)
      else if reply.Response? then Delay(busy, reply.retryAfter) + WaitUntil(busy + 1, script, n + 1, k)
      else WaitUntil(busy + 1, script, n + 1, k)
  }

  lemma FetchGoesOn(q: Request, o: Options, script: Script, n: nat)
    requires Fetch(q, o, script, n).sends > 0 && Again(q, o, script, n, n)
    ensures var t, rest, reply := Fetch(q, o, script, n), Fetch(q, NextOptions(q, o, script, n), script, n + 1),
                                  script(n).reply;
      && t.sends == 1 + rest.sends && t.final == rest.final && reply.Response?
      && t.refreshes == RefreshesHere(q, o, script(n)) + rest.refreshes
      && t.slept == (if Is401(reply) then 0.0 else Delay(o.busyCount, reply.retryAfter)) + rest.slept
    ensures var next := NextOptions(q, o, script, n);
      (next.isRetry && !o.isRetry) || (next.isRetry == o.isRetry && BusyLeft(next) < BusyLeft(o))
  {
  }

  lemma FetchStops(q: Request, o: Options, script: Script, n: nat)
    requires Fetch(q, o, script, n).sends > 0 && !Again(q, o, script, n, n)
    ensures Fetch(q, o, script, n) == Trace(1, RefreshesHere(q, o, script(n)), 0.0, Answer(script(n).reply))
  {
  }

  /**
   A chain goes on after a reply if and only if it is a 401, the first of a call that may retry it, and the refresh
   succeeds, or an overload answer to a GET or HEAD with fewer than two busy retries since and a wait of at most 3 s;
   and it waits exactly as long as those answers ask for.
   */
  lemma {:induction false} GoesOnExactly(q: Request, o: Options, script: Script, n: nat)
    ensures var t := Fetch(q, o, script, n);
      && (forall k: nat {:trigger Again(q, o, script, n, k)} | n <= k < n + t.sends - 1 :: Again(q, o, script, n, k))
      && (t.sends > 0 ==> (Again(q, o, script, n, n + t.sends - 1) <==> t.final.Unauthorised?))
      && (t.sends > 0 && t.final.Answer? ==> t.slept == WaitUntil(o.busyCount, script, n, n + t.sends - 1))
      && (t.sends > 0 && t.final.Unauthorised? ==> t.slept == WaitUntil(o.busyCount, script, n, n + t.sends))
    decreases !o.isRetry, BusyLeft(o)
  {
    var t := Fetch(q, o, script, n);
    var next := NextOptions(q, o, script, n);
    if t.sends > 0 && Again(q, o, script, n, n) {
      FetchGoesOn(q, o, script, n);
      GoesOnExactly(q, next, script, n + 1);
      forall k: nat | n < k ensures Again(q, o, script, n, k) <==> Again(q, next, script, n + 1, k) {
        AgainShifts(q, o, next, script, n, k);
      }
      forall k: nat | n <= k < n + t.sends - 1 ensures Again(q, o, script, n, k) {
        if k > n { assert Again(q, next, script, n + 1, k); }
      }
    } else if t.sends > 0 {
      FetchStops(q, o, script, n);
    }
  }

  /** The options of the next invocation, if there is one. */
  function NextOptions(q: Request, o: Options, script: Script, n: nat): Options {
    if Is401(script(n).reply) then Options(true, false, 0) else o.(busyCount := o.busyCount + 1)
  }

  lemma AgainShifts(q: Request, o: Options, next: Options, script: Script, n: nat, k: nat)
    requires n < k && Again(q, o, script, n, n) && next == NextOptions(q, o, script, n)
    ensures Again(q, o, script, n, k) <==> Again(q, next, script, n + 1, k)
  {
    assert Had401(script, n, k) <==> Is401(script(n).reply) || Had401(script, n + 1, k);
  }

  /** The refreshes at one request: before it if the token is due, and after a 401 that may be retried. */
  function RefreshesHere(q: Request, o: Options, scene: Scene): nat {
    if o.isRetry || o.skipAuthRefresh then 0
    else (if !q.publicAuth && scene.expiring then 1 else 0) + if !q.refreshEndpoint && Is401(scene.reply) then 1 else 0
  }

  /** The refreshes at requests `n` to `k - 1`. */
  function RefreshesAt(q: Request, o: Options, script: Script, n: nat, k: nat): nat
    requires n <= k
    decreases k - n
  {
    if n == k then 0
    else
      RefreshesHere(q, o, script(n))
      + RefreshesAt(q, o.(isRetry := o.isRetry || Is401(script(n).reply)), script, n + 1, k)
  }

  lemma RefreshesFromHere(q: Request, o: Options, script: Script, n: nat, k: nat)
    requires n < k && Again(q, o, script, n, n)
    ensures RefreshesAt(q, o, script, n, k) ==
            RefreshesHere(q, o, script(n)) + RefreshesAt(q, NextOptions(q, o, script, n), script, n + 1, k)
  {
    var next := NextOptions(q, o, script, n);
    SameRefreshes(q, o.(isRetry := o.isRetry || Is401(script(n).reply)), next, script, n + 1, k);
  }

  /** So many refreshes, and once more if the chain ends because a refresh failed. */
  predicate RefreshesFit(q: Request, o: Options, script: Script, n: nat, t: Trace) {
    t.refreshes == RefreshesAt(q, o, script, n, n + t.sends)
                   + if t.final.Unauthorised? && !script(n + t.sends).invalidated then 1 else 0
  }

  lemma OneMoreRefreshes(q: Request, o: Options, script: Script, n: nat, t: Trace, rest: Trace)
    requires Again(q, o, script, n, n) && RefreshesFit(q, NextOptions(q, o, script, n), script, n + 1, rest)
    requires t.sends == 1 + rest.sends && t.final == rest.final
    requires t.refreshes == RefreshesHere(q, o, script(n)) + rest.refreshes
    ensures RefreshesFit(q, o, script, n, t)
  {
    RefreshesFromHere(q, o, script, n, n + t.sends);
  }

  lemma NoneSentRefreshes(q: Request, o: Options, script: Script, n: nat)
    requires Fetch(q, o, script, n).sends == 0
    ensures RefreshesFit(q, o, script, n, Fetch(q, o, script, n))
  {
    NothingSentExactly(q, o, script, n);
  }

  /** The access token is refreshed exactly so often. */
  lemma {:induction false} RefreshedExactly(q: Request, o: Options, script: Script, n: nat)
    ensures RefreshesFit(q, o, script, n, Fetch(q, o, script, n))
    decreases !o.isRetry, BusyLeft(o)
  {
    if Fetch(q, o, script, n).sends == 0 {
      NoneSentRefreshes(q, o, script, n);
    } else if Again(q, o, script, n, n) {
      var next := NextOptions(q, o, script, n);
      FetchGoesOn(q, o, script, n);
      RefreshedExactly(q, next, script, n + 1);
      OneMoreRefreshes(q, o, script, n, Fetch(q, o, script, n), Fetch(q, next, script, n + 1));
    } else {
      FetchStops(q, o, script, n);
    }
  }

  /** Only whether a call may still refresh matters. */
  lemma {:induction false} SameRefreshes(q: Request, a: Options, b: Options, script: Script, n: nat, k: nat)
    requires n <= k && a.isRetry == b.isRetry && (a.isRetry || a.skipAuthRefresh == b.skipAuthRefresh)
    ensures RefreshesAt(q, a, script, n, k) == RefreshesAt(q, b, script, n, k)
    decreases k - n
  {
    if n < k {
      var is401 := Is401(script(n).reply);
      SameRefreshes(q, a.(isRetry := a.isRetry || is401), b.(isRetry := b.isRetry || is401), script, n + 1, k);
    }
  }

  /** How long a busy server is given: 300 ms, then 600 ms, or what a usable header says, never less than nothing. */
  lemma DelaySpec(header: RetryAfter)
    ensures header.NoHeader? || header.Unreadable? ==> Delay(0, header) == 300.0 && Delay(1, header) == 600.0
    ensures header.Seconds? && header.value >= 0.0 ==> Delay(0, header) == Delay(1, header) == 1000.0 * header.value
    ensures header.Date? && header.fromNow >= 0.0 ==> Delay(0, header) == Delay(1, header) == header.fromNow
    ensures (header.Seconds? && header.value < 0.0) || (header.Date? && header.fromNow < 0.0) ==>
              Delay(0, header) == Delay(1, header) == 0.0
  {
  }
}
