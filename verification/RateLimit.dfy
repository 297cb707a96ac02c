/** The per-client request limiter (app/middleware.py).

    `RateLimiter` keeps one deque of accept times per client and trims it on every
    request.  The lemmas compare it with the full history of accepted requests.
 */
module RateLimit {
  const WINDOW := 60.0

  datatype Request = Request(path: string, client: string, now: real)

  datatype Verdict = Exempt | Accepted | Rejected

  // ----- one request -----

  /** Drop from the left while the head is more than a window old. */
  function Trim(bucket: seq<real>, now: real): seq<real> {
    if bucket != [] && now - bucket[0] > WINDOW then Trim(bucket[1..], now) else bucket
  }

  function Bucket(buckets: map<string, seq<real>>, client: string): seq<real> {
    if client in buckets then buckets[client] else []
  }

  function Decide(limit: int, buckets: map<string, seq<real>>, q: Request): Verdict {
    if q.path == "/metrics" then Exempt
    else if |Trim(Bucket(buckets, q.client), q.now)| >= limit then Rejected
    else Accepted
  }

  function Update(limit: int, buckets: map<string, seq<real>>, q: Request): map<string, seq<real>> {
    var kept := Trim(Bucket(buckets, q.client), q.now);
    match Decide(limit, buckets, q)
    case Exempt => buckets
    case Rejected => buckets[q.client := kept]
    case Accepted => buckets[q.client := kept + [q.now]]
  }

  // ----- whole runs -----

  function Replay(limit: int, run: seq<Request>): map<string, seq<real>> {
    if run == [] then map[] else Update(limit, Replay(limit, run[..|run| - 1]), run[|run| - 1])
  }

  /** When each request of `client` that was let through came in. */
  function AcceptTimes(limit: int, run: seq<Request>, client: string): seq<real> {
    if run == [] then []
    else
      var before, q := run[..|run| - 1], run[|run| - 1];
      var t := AcceptTimes(limit, before, client);
      if q.client == client && Decide(limit, Replay(limit, before), q) == Accepted then t + [q.now] else t
  }

  /** How many of the times lie in the closed interval [lo, hi]. */
  function CountIn(times: seq<real>, lo: real, hi: real): nat {
    if times == [] then 0
    else CountIn(times[..|times| - 1], lo, hi) + (if lo <= times[|times| - 1] <= hi then 1 else 0)
  }

  predicate Monotone(times: seq<real>) {
    forall i, j | 0 <= i < j < |times| :: times[i] <= times[j]
  }

  /** The requests come with a clock that never runs backwards. */
  predicate ClockMonotone(run: seq<Request>) {
    forall i, j | 0 <= i < j < |run| :: run[i].now <= run[j].now
  }

  lemma Extend(limit: int, run: seq<Request>, q: Request, client: string)
    ensures Replay(limit, run + [q]) == Update(limit, Replay(limit, run), q)
    ensures AcceptTimes(limit, run + [q], client) ==
              if q.client == client && Decide(limit, Replay(limit, run), q) == Accepted
              then AcceptTimes(limit, run, client) + [q.now] else AcceptTimes(limit, run, client)
  {
    assert (run + [q])[..|run|] == run && (run + [q])[|run|] == q;
  }

  lemma ClockSplit(run: seq<Request>, q: Request)
    requires ClockMonotone(run + [q])
    ensures ClockMonotone(run) && (run != [] ==> run[|run| - 1].now <= q.now)
  {
    var all := run + [q];
    assert all[|run|] == q;
    assert forall i | 0 <= i < |run| :: all[i] == run[i];
  }

  // ----- the deque against the full history -----

  /** `bucket` is `times` without its first `k` entries, all of them more than a
      window older than `now`. */
  ghost predicate CutAt(bucket: seq<real>, times: seq<real>, now: real, k: nat) {
    k <= |times| && bucket == times[k..] && forall i | 0 <= i < k :: now - times[i] > WINDOW
  }

  lemma {:induction false} TrimCuts(bucket: seq<real>, times: seq<real>, now: real, k: nat) returns (j: nat)
    requires CutAt(bucket, times, now, k)
    ensures CutAt(Trim(bucket, now), times, now, j)
    ensures j < |times| ==> now - times[j] <= WINDOW
    decreases |bucket|
  {
    j := k;
    if bucket != [] && now - bucket[0] > WINDOW {
      assert bucket[1..] == times[k + 1..];
      j := TrimCuts(bucket[1..], times, now, k + 1);
    }
  }

  lemma {:induction false} CountAll(times: seq<real>, lo: real, hi: real, k: nat)
    requires k <= |times|
    requires forall i | 0 <= i < k :: times[i] < lo
    requires forall i | k <= i < |times| :: lo <= times[i] <= hi
    ensures CountIn(times, lo, hi) == |times| - k
    decreases |times|
  {
    if times != [] {
      var n := |times| - 1;
      if k <= n {
        CountAll(times[..n], lo, hi, k);
      } else {
        CountAll(times[..n], lo, hi, n);
      }
    }
  }

  /** On a history up to `now`, the trimmed deque is as long as the number of
      accepted requests in the preceding window. */
  lemma TrimmedLengthIsCount(bucket: seq<real>, times: seq<real>, now: real, k: nat) returns (j: nat)
    requires Monotone(times) && (times != [] ==> times[|times| - 1] <= now)
    requires CutAt(bucket, times, now, k)
    ensures CutAt(Trim(bucket, now), times, now, j)
    ensures |Trim(bucket, now)| == CountIn(times, now - WINDOW, now)
  {
    j := TrimCuts(bucket, times, now, k);
    forall i | j <= i < |times| ensures now - WINDOW <= times[i] <= now {}
    CountAll(times, now - WINDOW, now, j);
  }

  lemma {:induction false} TimesAreOrdered(limit: int, run: seq<Request>, client: string)
    requires ClockMonotone(run)
    ensures var t := AcceptTimes(limit, run, client);
            Monotone(t) && (t != [] ==> run != [] && t[|t| - 1] <= run[|run| - 1].now)
    decreases |run|
  {
    if run != [] {
      TimesAreOrdered(limit, run[..|run| - 1], client);
    }
  }

  lemma CutExtends(bucket: seq<real>, times: seq<real>, now: real, later: real, k: nat, x: real)
    requires CutAt(bucket, times, now, k) && now <= later
    ensures CutAt(bucket, times, later, k)
    ensures CutAt(bucket + [x], times + [x], later, k)
  {
  }

  /** What one request does to the summary of its client's deque. */
  lemma UpdateKeepsSummary(limit: int, buckets: map<string, seq<real>>, q: Request, times: seq<real>, k: nat)
    returns (j: nat)
    requires Monotone(times) && (times != [] ==> times[|times| - 1] <= q.now)
    requires CutAt(Bucket(buckets, q.client), times, q.now, k)
    ensures CutAt(Bucket(Update(limit, buckets, q), q.client),
                  if Decide(limit, buckets, q) == Accepted then times + [q.now] else times, q.now, j)
    ensures q.path != "/metrics" ==>
              (Decide(limit, buckets, q) == Rejected <==> CountIn(times, q.now - WINDOW, q.now) >= limit)
  {
    j := k;
    if q.path != "/metrics" {
      var b := Bucket(buckets, q.client);
      j := TrimmedLengthIsCount(b, times, q.now, k);
      CutExtends(Trim(b, q.now), times, q.now, q.now, j, q.now);
    }
  }

  /** At every point of a run the deque is a suffix of the accept history, and
      what was dropped from it is more than a window old. */
  lemma {:induction false} DequeSummarisesHistory(limit: int, run: seq<Request>, client: string, now: real)
    returns (k: nat)
    requires ClockMonotone(run) && (run != [] ==> run[|run| - 1].now <= now)
    ensures CutAt(Bucket(Replay(limit, run), client), AcceptTimes(limit, run, client), now, k)
    decreases |run|
  {
    k := 0;
    if run != [] {
      var before, q := run[..|run| - 1], run[|run| - 1];
      assert before + [q] == run;
      Extend(limit, before, q, client);
      ClockSplit(before, q);
      k := DequeSummarisesHistory(limit, before, client, q.now);
      if q.client == client {
        TimesAreOrdered(limit, before, client);
        k := UpdateKeepsSummary(limit, Replay(limit, before), q, AcceptTimes(limit, before, client), k);
      }
      CutExtends(Bucket(Replay(limit, run), client), AcceptTimes(limit, run, client), q.now, now, k, now);
    }
  }

  /** A request is turned away exactly when `limit` requests of its client were
      accepted in the 60 seconds up to it. */
  lemma RejectedExactlyWhenFull(limit: int, run: seq<Request>, q: Request)
    requires ClockMonotone(run + [q])
    ensures Decide(limit, Replay(limit, run), q) == Exempt <==> q.path == "/metrics"
    ensures q.path != "/metrics" ==>
              (Decide(limit, Replay(limit, run), q) == Rejected <==>
               CountIn(AcceptTimes(limit, run, q.client), q.now - 60.0, q.now) >= limit)
  {
    if q.path != "/metrics" {
      ClockSplit(run, q);
      var k := DequeSummarisesHistory(limit, run, q.client, q.now);
      TimesAreOrdered(limit, run, q.client);
      k := UpdateKeepsSummary(limit, Replay(limit, run), q, AcceptTimes(limit, run, q.client), k);
    }
  }

  // ----- the promise of the limiter -----

  /** With all times at most `last`, a window that starts no earlier than a window
      before `last` counts no more than the window up to `last`. */
  lemma {:induction false} CountNoMore(times: seq<real>, lo: real, hi: real, last: real)
    requires last - WINDOW <= lo
    requires forall i | 0 <= i < |times| :: times[i] <= last
    ensures CountIn(times, lo, hi) <= CountIn(times, last - WINDOW, last)
    decreases |times|
  {
    if times != [] {
      CountNoMore(times[..|times| - 1], lo, hi, last);
    }
  }

  /** No closed 60-second window of any run holds more than `limit` accepted
      requests of one client. */
  lemma {:induction false} WindowIsBounded(limit: int, run: seq<Request>, client: string, start: real)
    requires ClockMonotone(run)
    ensures CountIn(AcceptTimes(limit, run, client), start, start + 60.0) <= if limit < 0 then 0 else limit
    decreases |run|
  {
    if run != [] {
      var before, q := run[..|run| - 1], run[|run| - 1];
      assert before + [q] == run;
      Extend(limit, before, q, client);
      ClockSplit(before, q);
      WindowIsBounded(limit, before, client, start);
      if q.client == client && Decide(limit, Replay(limit, before), q) == Accepted {
        AcceptKeepsBound(limit, before, q, start);
      }
    }
  }

  lemma AcceptKeepsBound(limit: int, run: seq<Request>, q: Request, start: real)
    requires ClockMonotone(run + [q]) && Decide(limit, Replay(limit, run), q) == Accepted
    requires CountIn(AcceptTimes(limit, run, q.client), start, start + WINDOW) <= limit
    ensures CountIn(AcceptTimes(limit, run, q.client) + [q.now], start, start + WINDOW) <= limit
  {
    var t := AcceptTimes(limit, run, q.client);
    assert (t + [q.now])[..|t|] == t;
    if start <= q.now <= start + WINDOW {
      RejectedExactlyWhenFull(limit, run, q);
      ClockSplit(run, q);
      TimesAreOrdered(limit, run, q.client);
      CountNoMore(t, start, start + WINDOW, q.now);
    }
  }

  lemma CountExtend(times: seq<real>, x: real, lo: real, hi: real)
    ensures CountIn(times + [x], lo, hi) == CountIn(times, lo, hi) + (if lo <= x <= hi then 1 else 0)
  {
    assert (times + [x])[..|times|] == times;
  }

  // ----- clocks that step back -----

  /** No request is stamped more than `d` before an earlier one. */
  predicate StepsBackAtMost(run: seq<Request>, d: real) {
    forall i, j | 0 <= i < j < |run| :: run[i].now - d <= run[j].now
  }

  /** The acceptances of a client in the closed window that begins at `start`. */
  function InWindow(limit: int, run: seq<Request>, client: string, start: real): nat {
    CountIn(AcceptTimes(limit, run, client), start, start + 60.0)
  }

  /** No such window holds more than allowed. */
  ghost predicate Bounded(limit: int, run: seq<Request>) {
    forall client, start :: InWindow(limit, run, client, start) <= if limit < 0 then 0 else limit
  }

  // a limit of one

  predicate FarApart(times: seq<real>) {
    forall i, j | 0 <= i < j < |times| :: times[j] - times[i] > 60.0
  }

  function LastOnly(times: seq<real>): seq<real> {
    if times == [] then [] else [times[|times| - 1]]
  }

  lemma OtherClients(limit: int, buckets: map<string, seq<real>>, q: Request, client: string)
    requires q.client != client
    ensures Bucket(Update(limit, buckets, q), client) == Bucket(buckets, client)
  {
    hide Trim;
  }

  lemma OneMoreFarApart(buckets: map<string, seq<real>>, q: Request, times: seq<real>)
    requires FarApart(times) && Bucket(buckets, q.client) == LastOnly(times)
    ensures var t := if Decide(1, buckets, q) == Accepted then times + [q.now] else times;
            FarApart(t) && Bucket(Update(1, buckets, q), q.client) == LastOnly(t)
  {
    var kept := Trim(Bucket(buckets, q.client), q.now);
    assert Trim([], q.now) == [];
    if times != [] {
      assert LastOnly(times)[1..] == [];
    }
    assert kept == [] || kept == LastOnly(times);
    assert |kept| < 1 ==> kept == [] && [] + [q.now] == [q.now];
  }

  /** With a limit of one the deque is the last acceptance, and acceptances are more
      than a window apart, whatever the clock does. */
  lemma {:induction false} OneAtATime(run: seq<Request>, client: string)
    ensures Bucket(Replay(1, run), client) == LastOnly(AcceptTimes(1, run, client))
    ensures FarApart(AcceptTimes(1, run, client))
    decreases |run|
  {
    if run == [] {
      assert Replay(1, []) == map[] && AcceptTimes(1, [], client) == [];
    } else {
      hide *;
      var before, q := run[..|run| - 1], run[|run| - 1];
      assert before + [q] == run;
      Extend(1, before, q, client);
      OneAtATime(before, client);
      if q.client == client {
        OneMoreFarApart(Replay(1, before), q, AcceptTimes(1, before, client));
      } else {
        OtherClients(1, Replay(1, before), q, client);
      }
    }
  }

  lemma {:induction false} FarApartCounts(times: seq<real>, lo: real)
    requires FarApart(times)
    ensures CountIn(times, lo, lo + WINDOW) <= 1
    ensures (forall i | 0 <= i < |times| :: times[i] < lo) ==> CountIn(times, lo, lo + WINDOW) == 0
  {
    if times != [] {
      var n := |times| - 1;
      FarApartCounts(times[..n], lo);
      if lo <= times[n] <= lo + WINDOW {
        assert forall i | 0 <= i < n :: times[..n][i] < lo;
      }
    }
  }

  /** With no requests allowed none is accepted. */
  lemma {:induction false} NothingAccepted(limit: int, run: seq<Request>, client: string)
    requires limit <= 0
    ensures AcceptTimes(limit, run, client) == []
    decreases |run|
  {
    if run != [] {
      NothingAccepted(limit, run[..|run| - 1], client);
    }
  }

  // a limit of at least two

  function AtZero(n: nat): seq<Request> {
    if n == 0 then [] else AtZero(n - 1) + [Request("/", "c", 0.0)]
  }

  function Zeros(n: nat): (z: seq<real>)
    ensures |z| == n && forall i | 0 <= i < n :: z[i] == 0.0
  {
    if n == 0 then [] else Zeros(n - 1) + [0.0]
  }

  lemma {:induction false} ZerosAccepted(limit: int, n: nat)
    requires n <= limit
    ensures AcceptTimes(limit, AtZero(n), "c") == Zeros(n)
    ensures Bucket(Replay(limit, AtZero(n)), "c") == Zeros(n)
  {
    if n > 0 {
      ZerosAccepted(limit, n - 1);
      Extend(limit, AtZero(n - 1), Request("/", "c", 0.0), "c");
      assert AtZero(n) == AtZero(n - 1) + [Request("/", "c", 0.0)] && Zeros(n) == Zeros(n - 1) + [0.0];
      hide AtZero, Zeros, AcceptTimes, Replay, Decide, Update;
      ZeroStep(limit, Replay(limit, AtZero(n - 1)), Zeros(n - 1));
    } else {
      assert AcceptTimes(limit, AtZero(0), "c") == [] && Replay(limit, AtZero(0)) == map[];
    }
  }

  lemma ZeroStep(limit: int, buckets: map<string, seq<real>>, z: seq<real>)
    requires Bucket(buckets, "c") == z && |z| < limit && forall i | 0 <= i < |z| :: z[i] == 0.0
    ensures Decide(limit, buckets, Request("/", "c", 0.0)) == Accepted
    ensures Bucket(Update(limit, buckets, Request("/", "c", 0.0)), "c") == z + [0.0]
  {
  }

  lemma {:induction false} ZerosTrimmed(n: nat, now: real)
    requires now > WINDOW
    ensures Trim(Zeros(n), now) == []
  {
    if n > 0 {
      ZerosTail(n);
      ZerosTrimmed(n - 1, now);
    }
  }

  lemma ZerosTail(n: nat)
    requires n > 0
    ensures Zeros(n)[1..] == Zeros(n - 1)
  {
  }

  lemma {:induction false} ZerosCount(n: nat)
    ensures CountIn(Zeros(n), 0.0, WINDOW) == n
  {
    if n > 0 {
      ZerosCount(n - 1);
      CountExtend(Zeros(n - 1), 0.0, 0.0, WINDOW);
    }
  }

  /** The limit's worth of requests at one time, one just over a window later, which
      empties the deque, and one stamped back inside the window. */
  function Overfull(limit: nat, d: real): seq<Request> {
    AtZero(limit) + [Request("/", "c", WINDOW + d)] + [Request("/", "c", WINDOW)]
  }

  lemma OverfullAccepted(limit: nat, d: real)
    requires limit >= 2 && d > 0.0
    ensures AcceptTimes(limit, Overfull(limit, d), "c") == Zeros(limit) + [WINDOW + d] + [WINDOW]
  {
    var late, back := Request("/", "c", WINDOW + d), Request("/", "c", WINDOW);
    ZerosAccepted(limit, limit);
    ZerosTrimmed(limit, WINDOW + d);
    Extend(limit, AtZero(limit), late, "c");
    Extend(limit, AtZero(limit) + [late], back, "c");
  }

  lemma {:induction false} AtZeroIs(n: nat)
    ensures |AtZero(n)| == n && forall i | 0 <= i < n :: AtZero(n)[i].now == 0.0
  {
    if n > 0 {
      AtZeroIs(n - 1);
    }
  }

  lemma OverfullBreaks(limit: nat, d: real)
    requires limit >= 2 && d > 0.0
    ensures StepsBackAtMost(Overfull(limit, d), d) && !Bounded(limit, Overfull(limit, d))
  {
    AtZeroIs(limit);
    OverfullAccepted(limit, d);
    ZerosCount(limit);
    CountExtend(Zeros(limit), WINDOW + d, 0.0, WINDOW);
    CountExtend(Zeros(limit) + [WINDOW + d], WINDOW, 0.0, WINDOW);
    assert InWindow(limit, Overfull(limit, d), "c", 0.0) == limit + 1;
  }

  lemma MonotoneBound(limit: int, d: real, run: seq<Request>, client: string, start: real)
    requires StepsBackAtMost(run, d) && d <= 0.0
    ensures InWindow(limit, run, client, start) <= if limit < 0 then 0 else limit
  {
    assert ClockMonotone(run);
    hide *;
    WindowIsBounded(limit, run, client, start);
    WindowIs(limit, run, client, start);
  }

  lemma SingleBound(run: seq<Request>, client: string, start: real)
    ensures InWindow(1, run, client, start) <= 1
  {
    hide *;
    OneAtATime(run, client);
    FarApartCounts(AcceptTimes(1, run, client), start);
    WindowIs(1, run, client, start);
  }

  lemma NoneBound(limit: int, run: seq<Request>, client: string, start: real)
    requires limit <= 0
    ensures InWindow(limit, run, client, start) == 0
  {
    NothingAccepted(limit, run, client);
    assert CountIn([], start, start + WINDOW) == 0;
    hide *;
    WindowIs(limit, run, client, start);
  }

  lemma BoundedAnyway(limit: int, d: real, run: seq<Request>, client: string, start: real)
    requires StepsBackAtMost(run, d) && (d <= 0.0 || limit <= 1)
    ensures InWindow(limit, run, client, start) <= if limit < 0 then 0 else limit
  {
    hide *;
    if d <= 0.0 {
      MonotoneBound(limit, d, run, client, start);
    } else if limit <= 0 {
      NoneBound(limit, run, client, start);
    } else {
      SingleBound(run, client, start);
    }
  }

  lemma WindowIs(limit: int, run: seq<Request>, client: string, start: real)
    ensures InWindow(limit, run, client, start) == CountIn(AcceptTimes(limit, run, client), start, start + WINDOW)
  {
  }

  /** The bound survives clocks that step back by at most `d` exactly when `d` is no
      step back at all or the limit is at most one. */
  lemma BoundHoldsExactlyWhen(limit: int, d: real)
    ensures (forall run: seq<Request> | StepsBackAtMost(run, d) :: Bounded(limit, run)) <==> d <= 0.0 || limit <= 1
  {
    if d <= 0.0 || limit <= 1 {
      forall run: seq<Request> | StepsBackAtMost(run, d) ensures Bounded(limit, run) {
        forall client, start ensures InWindow(limit, run, client, start) <= if limit < 0 then 0 else limit {
          BoundedAnyway(limit, d, run, client, start);
        }
      }
    } else {
      OverfullBreaks(limit, d);
    }
  }

  // ----- the middleware object -----

  class RateLimiter {
    const limit: int
    var requests: map<string, seq<real>>
    ghost var run: seq<Request>

    ghost predicate Valid()
      reads this
    {
      requests == Replay(limit, run)
    }

    constructor (requestsPerMinute: int)
      ensures limit == requestsPerMinute && Valid() && run == []
    {
      limit, requests, run := requestsPerMinute, map[], [];
    }

    method Dispatch(q: Request) returns (verdict: Verdict)
      requires Valid()
      modifies this
      ensures Valid() && run == old(run) + [q]
      ensures verdict == Decide(limit, Replay(limit, old(run)), q)
    {
      run := run + [q];
      assert run[..|run| - 1] == old(run);
      if q.path == "/metrics" {
        return Exempt;
      }
      var bucket := Bucket(requests, q.client);
      while bucket != [] && q.now - bucket[0] > WINDOW
        invariant Trim(bucket, q.now) == Trim(Bucket(old(requests), q.client), q.now)
        decreases |bucket|
      {
        bucket := bucket[1..];
      }
      if |bucket| >= limit {
        requests := requests[q.client := bucket];
        return Rejected;
      }
      bucket := bucket + [q.now];
      requests := requests[q.client := bucket];
      return Accepted;
    }
  }
}
