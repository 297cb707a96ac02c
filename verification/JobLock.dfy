/** The DB lease lock around jobs (worker/job_lock.py, worker/jobs.py).

    Acquire and release are atomic steps on one row per job.  Many workers share the
    table; the clock only moves forward; a worker may die while it holds a lease.

    A stored time comes back as the column gives it.  The column is declared without a
    time zone (database/models/intelligence.py), the clock is read with one, and Python
    refuses to order two such times.  `AS_DECLARED` is that column; `ZONED` is one that
    keeps the zone, as the lock supposes.  What holds of each is proved separately.
 */
module JobLock {
  import opened Common

  // ----- times -----

  /** A point in time, in ticks, without or with a zone. */
  datatype Stamp = Naive(at: int) | Aware(at: int)

  datatype Column = WithoutZone | WithZone

  const AS_DECLARED := WithoutZone
  const ZONED := WithZone

  /** What a new session reads where `at` was stored. */
  function ReadBack(c: Column, at: int): Stamp {
    match c
    case WithoutZone => Naive(at)
    case WithZone => Aware(at)
  }

  /** a > b, or None for a TypeError. */
  function Later(a: Stamp, b: Stamp): Option<bool> {
    if a.Naive? == b.Naive? then Some(a.at > b.at) else None
  }

  // ----- the two atomic steps -----

  datatype Status = Idle | Running | Success | Failed

  datatype Row = Row(
    status: Status, startedAt: Option<int>, finishedAt: Option<int>, error: Option<string>,
    lockUntil: Option<int>, runCount: nat)

  const NEW_ROW := Row(Idle, None, None, None, None, 0)

  type Table = map<string, Row>

  function RowOf(t: Table, job: string): Row {
    if job in t then t[job] else NEW_ROW
  }

  predicate Carries(t: Table, job: string) {
    RowOf(t, job).lockUntil.Some?
  }

  datatype Verdict = Granted | Refused | Raised

  function Attempt(c: Column, t: Table, job: string, now: int): Verdict {
    if !Carries(t, job) then Granted
    else match Later(ReadBack(c, RowOf(t, job).lockUntil.value), Aware(now))
      case None => Raised
      case Some(true) => Refused
      case Some(false) => Granted
  }

  function Acquired(c: Column, t: Table, job: string, now: int, until: int): Table {
    if Attempt(c, t, job, now) != Granted then t
    else t[job := RowOf(t, job).(status := Running, startedAt := Some(now), lockUntil := Some(until))]
  }

  function Released(t: Table, job: string, now: int, success: bool, error: Option<string>): Table {
    if job !in t then t
    else t[job := t[job].(status := if success then Success else Failed, finishedAt := Some(now),
                          error := error, lockUntil := None, runCount := t[job].runCount + 1)]
  }

  /** With the column as declared nothing is ever refused: an acquire raises exactly
      where a lease is stored, overdue or not. */
  lemma AcquireRaisesExactlyOnLease(t: Table, job: string, now: int)
    ensures Attempt(AS_DECLARED, t, job, now) == Raised <==> Carries(t, job)
    ensures Attempt(AS_DECLARED, t, job, now) != Refused
    // a zoned column would make it the test that the lock intends
    ensures Attempt(ZONED, t, job, now) == Refused <==> Carries(t, job) && RowOf(t, job).lockUntil.value > now
    ensures Attempt(ZONED, t, job, now) != Raised
  {
  }

  // ----- many workers -----

  /** What a worker inside `_with_lock` believes it holds. */
  datatype Lease = Lease(job: string, until: int)

  datatype World = World(now: int, table: Table, live: map<nat, Lease>)

  datatype Step =
    | Tick(dt: nat)
    | Acquire(worker: nat, job: string, length: int)
    | Finish(worker: nat, error: Option<string>)
    | Crash(worker: nat)

  /** A refused or raising acquire changes nothing. */
  function Next(c: Column, w: World, s: Step): World {
    match s
    case Tick(dt) => w.(now := w.now + dt)
    case Acquire(k, job, length) =>
      if k in w.live || Attempt(c, w.table, job, w.now) != Granted then w
      else World(w.now, Acquired(c, w.table, job, w.now, w.now + length), w.live[k := Lease(job, w.now + length)])
    case Finish(k, error) =>
      if k !in w.live then w
      else World(w.now, Released(w.table, w.live[k].job, w.now, error.None?, error), w.live - {k})
    case Crash(k) => w.(live := w.live - {k})
  }

  function Exec(c: Column, w: World, steps: seq<Step>): World {
    if steps == [] then w else Next(c, Exec(c, w, steps[..|steps| - 1]), steps[|steps| - 1])
  }

  ghost predicate Exclusive(w: World) {
    forall j, k | j in w.live && k in w.live && j != k :: w.live[j].job != w.live[k].job
  }

  /** Every live worker is the one its job's row is leased to. */
  ghost predicate Owned(w: World) {
    forall k | k in w.live :: RowOf(w.table, w.live[k].job).lockUntil == Some(w.live[k].until)
  }

  ghost predicate Fresh(w: World) {
    w.table == map[] && w.live == map[]
  }

  /** A free worker acquires while a live holder of the job is past its lease. */
  ghost predicate TakesOver(w: World, s: Step) {
    s.Acquire? && s.worker !in w.live
    && exists j :: j in w.live && w.live[j].job == s.job && w.live[j].until <= w.now
  }

  // ----- exclusion -----

  /** Out of an owned and exclusive world, one step ends exclusion exactly when the
      column keeps the zone and the step takes over an overdue lease; a step that does
      not keeps both. */
  lemma StepExcludesExactlyWhen(c: Column, w: World, s: Step)
    requires Owned(w) && Exclusive(w)
    ensures Exclusive(Next(c, w, s)) <==> !(c == ZONED && TakesOver(w, s))
    ensures Exclusive(Next(c, w, s)) ==> Owned(Next(c, w, s))
  {
    if c == ZONED && TakesOver(w, s) {
      var v := Next(c, w, s);
      var j :| j in w.live && w.live[j].job == s.job && w.live[j].until <= w.now;
      assert j in v.live && s.worker in v.live && v.live[s.worker].job == v.live[j].job;
    }
  }

  /** With the column as declared: mutual exclusion for any number of workers and jobs
      and any interleaving, however long the jobs run. */
  lemma {:induction false} ExclusionWithoutDeadlines(w: World, steps: seq<Step>)
    requires Fresh(w)
    ensures Exclusive(Exec(AS_DECLARED, w, steps)) && Owned(Exec(AS_DECLARED, w, steps))
    decreases |steps|
  {
    if steps != [] {
      var n := |steps| - 1;
      ExclusionWithoutDeadlines(w, steps[..n]);
      StepExcludesExactlyWhen(AS_DECLARED, Exec(AS_DECLARED, w, steps[..n]), steps[n]);
    }
  }

  /** No step of the run takes over an overdue lease. */
  ghost predicate NoTakeover(w: World, steps: seq<Step>) {
    steps == []
    || var n := |steps| - 1;
       NoTakeover(w, steps[..n]) && !TakesOver(Exec(ZONED, w, steps[..n]), steps[n])
  }

  /** Exclusion holds at every point of the run. */
  ghost predicate AlwaysExclusive(w: World, steps: seq<Step>) {
    Exclusive(Exec(ZONED, w, steps)) && (steps != [] ==> AlwaysExclusive(w, steps[..|steps| - 1]))
  }

  /** With a zoned column: exclusion holds throughout a run exactly when no step of it
      takes over the lease of a live, overdue holder. */
  lemma {:induction false} ExclusiveExactlyWithoutTakeover(w: World, steps: seq<Step>)
    requires Fresh(w)
    ensures AlwaysExclusive(w, steps) <==> NoTakeover(w, steps)
    ensures AlwaysExclusive(w, steps) ==> Owned(Exec(ZONED, w, steps))
    decreases |steps|
  {
    if steps != [] {
      var n := |steps| - 1;
      ExclusiveExactlyWithoutTakeover(w, steps[..n]);
      if AlwaysExclusive(w, steps[..n]) {
        ExclusiveNow(w, steps[..n]);
        StepExcludesExactlyWhen(ZONED, Exec(ZONED, w, steps[..n]), steps[n]);
      }
    }
  }

  lemma ExclusiveNow(w: World, steps: seq<Step>)
    requires AlwaysExclusive(w, steps)
    ensures Exclusive(Exec(ZONED, w, steps))
  {
  }

  /** Nobody is running past the end of the lease it took. */
  ghost predicate Timely(w: World) {
    forall k | k in w.live :: w.now < w.live[k].until
  }

  /** With a zoned column: mutual exclusion for any interleaving in which every live job
      ends before its lease does. */
  lemma {:induction false} MutualExclusion(w: World, steps: seq<Step>)
    requires Fresh(w)
    requires forall n | 0 <= n < |steps| :: Timely(Exec(ZONED, w, steps[..n]))
    ensures Exclusive(Exec(ZONED, w, steps)) && Owned(Exec(ZONED, w, steps))
    decreases |steps|
  {
    if steps != [] {
      var n := |steps| - 1;
      assert forall m | 0 <= m < n :: steps[..n][..m] == steps[..m];
      MutualExclusion(w, steps[..n]);
      assert Timely(Exec(ZONED, w, steps[..n]));
      StepExcludesExactlyWhen(ZONED, Exec(ZONED, w, steps[..n]), steps[n]);
    }
  }

  // ----- releases by non-owners -----

  function FiveSteps(): seq<Step> {
    [] + [Acquire(1, "j", 10)] + [Tick(10)] + [Acquire(2, "j", 10)] + [Finish(1, None)] + [Acquire(3, "j", 10)]
  }

  lemma ExecExtend(c: Column, w: World, steps: seq<Step>, s: Step)
    ensures Exec(c, w, steps + [s]) == Next(c, Exec(c, w, steps), s)
  {
    assert (steps + [s])[..|steps|] == steps;
  }

  lemma FiveStepsRun(c: Column, w: World) returns (u: World)
    ensures var w1 := Next(c, w, Acquire(1, "j", 10));
            var w3 := Next(c, Next(c, w1, Tick(10)), Acquire(2, "j", 10));
            u == Next(c, Next(c, w3, Finish(1, None)), Acquire(3, "j", 10))
    ensures Exec(c, w, FiveSteps()) == u
  {
    hide Next;
    var s0: seq<Step> := [];
    var s1 := s0 + [Acquire(1, "j", 10)];
    var s2 := s1 + [Tick(10)];
    var s3 := s2 + [Acquire(2, "j", 10)];
    var s4 := s3 + [Finish(1, None)];
    ExecExtend(c, w, s0, Acquire(1, "j", 10));
    ExecExtend(c, w, s1, Tick(10));
    ExecExtend(c, w, s2, Acquire(2, "j", 10));
    ExecExtend(c, w, s3, Finish(1, None));
    ExecExtend(c, w, s4, Acquire(3, "j", 10));
    u := Exec(c, w, FiveSteps());
  }

  /** Release asks nobody who holds the lease.  With a zoned column one overdue worker's
      release therefore lets a third worker in beside a second one although both of
      those are on time; as declared, the second worker's acquire raises and the third
      one finds the row released. */
  lemma StaleReleaseBreaksExclusion(w: World)
    requires Fresh(w)
    ensures Timely(Exec(ZONED, w, FiveSteps())) && !Exclusive(Exec(ZONED, w, FiveSteps()))
    ensures Exec(AS_DECLARED, w, FiveSteps()).live.Keys == {3}
  {
    var u := FiveStepsRun(ZONED, w);
    assert 2 in u.live && 3 in u.live && u.live[2].job == u.live[3].job;
    var v := FiveStepsRun(AS_DECLARED, w);
  }

  // ----- crashes -----

  /** The row carries this lease and nobody runs the job. */
  ghost predicate Abandoned(w: World, job: string, until: int) {
    RowOf(w.table, job).lockUntil == Some(until) && forall k | k in w.live :: w.live[k].job != job
  }

  lemma CrashAbandons(c: Column, w: World, dead: nat)
    requires Owned(w) && Exclusive(w) && dead in w.live
    ensures Abandoned(Next(c, w, Crash(dead)), w.live[dead].job, w.live[dead].until)
  {
  }

  /** While the job cannot be acquired, nothing that others do changes its row. */
  lemma AbandonedStays(c: Column, w: World, job: string, until: int, s: Step)
    requires Abandoned(w, job, until)
    requires Attempt(c, w.table, job, w.now) != Granted
    ensures Abandoned(Next(c, w, s), job, until)
  {
  }

  /** With the column as declared a crash locks the job for good: whatever happens
      afterwards, the lease stays, nobody runs the job, and every acquire raises. */
  lemma {:induction false} CrashLocksForGood(w: World, dead: nat, steps: seq<Step>)
    requires Owned(w) && Exclusive(w) && dead in w.live
    ensures var u := Exec(AS_DECLARED, Next(AS_DECLARED, w, Crash(dead)), steps);
            && Abandoned(u, w.live[dead].job, w.live[dead].until)
            && Attempt(AS_DECLARED, u.table, w.live[dead].job, u.now) == Raised
    decreases |steps|
  {
    var v, job, until := Next(AS_DECLARED, w, Crash(dead)), w.live[dead].job, w.live[dead].until;
    if steps == [] {
      CrashAbandons(AS_DECLARED, w, dead);
    } else {
      var n := |steps| - 1;
      CrashLocksForGood(w, dead, steps[..n]);
      AbandonedStays(AS_DECLARED, Exec(AS_DECLARED, v, steps[..n]), job, until, steps[n]);
    }
  }

  /** With a zoned column the dead worker's lease stands through any interleaving of the
      others whose steps start before it ends; the next acquire succeeds exactly when it
      has ended. */
  lemma {:induction false} CrashBlocksUntilExpiry(w: World, dead: nat, steps: seq<Step>, k: nat, length: int)
    requires Owned(w) && Exclusive(w) && dead in w.live
    requires var v := Next(ZONED, w, Crash(dead));
             forall n | 0 <= n < |steps| :: Exec(ZONED, v, steps[..n]).now < w.live[dead].until
    ensures var u := Exec(ZONED, Next(ZONED, w, Crash(dead)), steps);
            var job, until := w.live[dead].job, w.live[dead].until;
            && Abandoned(u, job, until)
            && (k !in u.live ==> (k in Next(ZONED, u, Acquire(k, job, length)).live <==> until <= u.now))
    decreases |steps|
  {
    var v, job, until := Next(ZONED, w, Crash(dead)), w.live[dead].job, w.live[dead].until;
    if steps == [] {
      CrashAbandons(ZONED, w, dead);
    } else {
      var n := |steps| - 1;
      assert forall m | 0 <= m < n :: steps[..n][..m] == steps[..m];
      CrashBlocksUntilExpiry(w, dead, steps[..n], k, length);
      assert Exec(ZONED, v, steps[..n]).now < until;
      AbandonedStays(ZONED, Exec(ZONED, v, steps[..n]), job, until, steps[n]);
    }
  }

  // ----- bookkeeping -----

  /** The number of releases of `job` in a run. */
  function Releases(c: Column, w: World, steps: seq<Step>, job: string): nat {
    if steps == [] then 0
    else
      var before, s := Exec(c, w, steps[..|steps| - 1]), steps[|steps| - 1];
      Releases(c, w, steps[..|steps| - 1], job)
      + (if s.Finish? && s.worker in before.live && before.live[s.worker].job == job then 1 else 0)
  }

  ghost predicate Consistent(w: World) {
    && (forall k | k in w.live :: w.live[k].job in w.table)
    && (forall job | job in w.table :: w.table[job].status == Running <==> w.table[job].lockUntil.Some?)
  }

  lemma StepCounts(c: Column, w: World, s: Step, job: string)
    requires Consistent(w)
    ensures Consistent(Next(c, w, s))
    ensures RowOf(Next(c, w, s).table, job).runCount
            == RowOf(w.table, job).runCount
               + (if s.Finish? && s.worker in w.live && w.live[s.worker].job == job then 1 else 0)
  {
  }

  /** With either column, timely or not: run_count is the number of releases, and a row
      says "running" exactly while it carries a lease. */
  lemma {:induction false} RunCountIsReleases(c: Column, w: World, steps: seq<Step>, job: string)
    requires Fresh(w)
    ensures RowOf(Exec(c, w, steps).table, job).runCount == Releases(c, w, steps, job)
    ensures Consistent(Exec(c, w, steps))
    decreases |steps|
  {
    if steps != [] {
      var n := |steps| - 1;
      hide Next, Consistent, RowOf;
      RunCountIsReleases(c, w, steps[..n], job);
      StepCounts(c, Exec(c, w, steps[..n]), steps[n], job);
    } else {
      assert RowOf(w.table, job).runCount == 0 && Consistent(w);
    }
  }

  // ----- the table object -----

  /** How a call under the lock ends. */
  datatype Outcome<T> = Skipped | Finished(body: Result<T, string>) | AcquireFailed

  class JobTable {
    const column: Column
    var jobs: Table

    constructor (column: Column)
      ensures this.column == column && jobs == map[]
    {
      this.column := column;
      jobs := map[];
    }

    method AcquireJobLock(job: string, now: int, length: int) returns (verdict: Verdict)
      modifies this
      ensures verdict == Attempt(column, old(jobs), job, now)
      ensures jobs == Acquired(column, old(jobs), job, now, now + length)
    {
      var row := NEW_ROW;
      if job in jobs {
        row := jobs[job];
      }
      if row.lockUntil.Some? {
        var later := Later(ReadBack(column, row.lockUntil.value), Aware(now));
        if later.None? {
          return Raised;
        }
        if later.value {
          return Refused;
        }
      }
      jobs := jobs[job := row.(status := Running, startedAt := Some(now), lockUntil := Some(now + length))];
      return Granted;
    }

    method ReleaseJobLock(job: string, now: int, success: bool, error: Option<string>)
      modifies this
      ensures jobs == Released(old(jobs), job, now, success, error)
    {
      if job !in jobs {
        return;
      }
      var row := jobs[job];
      jobs := jobs[job := row.(status := if success then Success else Failed, finishedAt := Some(now),
                               error := error, lockUntil := None, runCount := row.runCount + 1)];
    }

    /** `body` is what the job function does: return a value or raise.  The release
        after it may raise `fault`, and the release in the handler `worse`; both are
        rolled back then.  A skip or a failing acquire leaves the table alone; otherwise
        the call is one acquire, the body and one release that counts, recorded as a
        failure if anything raised before it.  Only when the handler's release raises
        too does the lease stay. */
    method WithLock<T>(job: string, now: int, length: int, duration: nat, body: Result<T, string>,
                       fault: Option<string>, worse: Option<string>)
      returns (r: Outcome<T>)
      modifies this
      ensures var raised := if body.Err? then Some(body.error) else fault;
              match Attempt(column, old(jobs), job, now)
              case Granted =>
                r == Finished(if raised.None? then body else Err(if worse.Some? then worse.value else raised.value))
              case Refused => r == Skipped
              case Raised => r == AcquireFailed
      ensures forall k: nat ::
                var w := World(now, old(jobs), map[]);
                var raised := if body.Err? then Some(body.error) else fault;
                var held := Next(column, Next(column, w, Acquire(k, job, length)), Tick(duration));
                jobs == if raised.Some? && worse.Some? then held.table else Next(column, held, Finish(k, raised)).table
      // the row afterwards, field by field
      ensures Attempt(column, old(jobs), job, now) != Granted ==> jobs == old(jobs)
      ensures Attempt(column, old(jobs), job, now) == Granted ==>
                && job in jobs && jobs == old(jobs)[job := jobs[job]]
                && var count := if job in old(jobs) then old(jobs)[job].runCount else 0;
                   var raised := if body.Err? then Some(body.error) else fault;
                   if raised.None?
                   then jobs[job] == Row(Success, Some(now), Some(now + duration), None, None, count + 1)
                   else if worse.None?
                   then jobs[job] == Row(Failed, Some(now), Some(now + duration), raised, None, count + 1)
                   else jobs[job].status == Running && jobs[job].startedAt == Some(now)
                        && jobs[job].lockUntil == Some(now + length) && jobs[job].runCount == count
    {
      var verdict := AcquireJobLock(job, now, length);
      match verdict {
        case Granted =>
        case Refused => return Skipped;
        case Raised => return AcquireFailed;
      }
      var raised := fault;
      match body {
        case Ok(_) =>
          if fault.None? {
            ReleaseJobLock(job, now + duration, true, None);
            return Finished(body);
          }
        case Err(e) => raised := Some(e);
      }
      if worse.Some? {
        return Finished(Err(worse.value));
      }
      ReleaseJobLock(job, now + duration, false, raised);
      return Finished(Err(raised.value));
    }
  }
}
