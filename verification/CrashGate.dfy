/** Native-crash window and cooldown (app/runtime_state.py) and the isolated
    forecasting run they gate (worker/forecasting_isolation.py).

    The state keeps only the crashes of the last five minutes and the end of the
    current cooldown.  The lemmas compare it with the full crash history.
 */
module CrashGate {
  import opened Common

  const CRASH_WINDOW := 300.0
  const COOLDOWN := 600.0
  const CRASH_LIMIT := 3

  // ----- recording -----

  function Recent(stamps: seq<real>, now: real): seq<real> {
    if stamps == [] then []
    else
      var r, t := Recent(stamps[..|stamps| - 1], now), stamps[|stamps| - 1];
      if now - t < CRASH_WINDOW then r + [t] else r
  }

  datatype Pruned = Pruned(stamps: seq<real>, cooldownUntil: real)

  function Record(p: Pruned, now: real): Pruned {
    var window := Recent(p.stamps, now) + [now];
    Pruned(window, if |window| >= CRASH_LIMIT then now + COOLDOWN else p.cooldownUntil)
  }

  /** The stored state after a history of crashes; there is no cooldown at first. */
  function After(crashes: seq<real>): Pruned {
    if crashes == [] then Pruned([], 0.0)
    else Record(After(crashes[..|crashes| - 1]), crashes[|crashes| - 1])
  }

  predicate Cooling(p: Pruned, now: real) {
    now < p.cooldownUntil
  }

  predicate Ordered(crashes: seq<real>) {
    && (forall i | 0 <= i < |crashes| :: 0.0 <= crashes[i])
    && (forall i, j | 0 <= i < j < |crashes| :: crashes[i] <= crashes[j])
  }

  // ----- the full history -----

  /** The number of crashes in the half-open interval (hi - 300, hi]. */
  function InWindow(crashes: seq<real>, hi: real): nat {
    if crashes == [] then 0
    else
      var t := crashes[|crashes| - 1];
      InWindow(crashes[..|crashes| - 1], hi) + (if hi - 300.0 < t <= hi then 1 else 0)
  }

  /** Some crash less than ten minutes before `now` was the third or later in five minutes. */
  ghost predicate Loop(crashes: seq<real>, now: real) {
    exists i :: 0 <= i < |crashes| && now < crashes[i] + 600.0 && InWindow(crashes, crashes[i]) >= 3
  }

  lemma {:induction false} RecentOfRecent(stamps: seq<real>, before: real, now: real)
    requires before <= now
    ensures Recent(Recent(stamps, before), now) == Recent(stamps, now)
    decreases |stamps|
  {
    if stamps != [] {
      var pre, t := stamps[..|stamps| - 1], stamps[|stamps| - 1];
      RecentOfRecent(pre, before, now);
      assert (Recent(pre, before) + [t])[..|Recent(pre, before)|] == Recent(pre, before);
    }
  }

  lemma RecentExtend(stamps: seq<real>, t: real, now: real)
    ensures Recent(stamps + [t], now)
            == if now - t < CRASH_WINDOW then Recent(stamps, now) + [t] else Recent(stamps, now)
  {
    assert (stamps + [t])[..|stamps|] == stamps;
  }

  lemma AfterExtend(t: seq<real>, e: real)
    ensures After(t + [e]) == Record(After(t), e)
  {
    assert (t + [e])[..|t|] == t;
  }

  lemma OrderedBefore(crashes: seq<real>)
    requires Ordered(crashes) && crashes != []
    ensures var pre, t := crashes[..|crashes| - 1], crashes[|crashes| - 1];
            Ordered(pre) && 0.0 <= t && (pre != [] ==> pre[|pre| - 1] <= t)
  {
  }

  /** Pruning forgets nothing that a later pruning would keep. */
  lemma {:induction false} PrunedAgreesWithHistory(crashes: seq<real>, now: real)
    requires Ordered(crashes) && (crashes != [] ==> crashes[|crashes| - 1] <= now)
    ensures Recent(After(crashes).stamps, now) == Recent(crashes, now)
    decreases |crashes|
  {
    if crashes != [] {
      var pre, t := crashes[..|crashes| - 1], crashes[|crashes| - 1];
      assert pre + [t] == crashes;
      OrderedBefore(crashes);
      AfterExtend(pre, t);
      assert After(crashes).stamps == Recent(After(pre).stamps, t) + [t];
      hide *;
      PrunedAgreesWithHistory(pre, t);
      RecentExtend(Recent(After(pre).stamps, t), t, now);
      RecentOfRecent(pre, t, now);
      RecentExtend(pre, t, now);
    }
  }

  lemma {:induction false} RecentCounts(crashes: seq<real>, now: real)
    requires Ordered(crashes) && (crashes != [] ==> crashes[|crashes| - 1] <= now)
    ensures |Recent(crashes, now)| == InWindow(crashes, now)
    decreases |crashes|
  {
    if crashes != [] {
      RecentCounts(crashes[..|crashes| - 1], now);
    }
  }

  lemma InWindowGrows(crashes: seq<real>, t: real, hi: real)
    ensures InWindow(crashes + [t], hi) == InWindow(crashes, hi) + (if hi - CRASH_WINDOW < t <= hi then 1 else 0)
  {
    assert (crashes + [t])[..|crashes|] == crashes;
  }

  lemma RecordDecides(crashes: seq<real>, t: real)
    requires Ordered(crashes + [t])
    ensures After(crashes + [t]).cooldownUntil ==
              if InWindow(crashes + [t], t) >= CRASH_LIMIT then t + COOLDOWN else After(crashes).cooldownUntil
  {
    var all := crashes + [t];
    assert all[..|crashes|] == crashes && all[|crashes|] == t;
    assert forall i | 0 <= i < |crashes| :: all[i] == crashes[i];
    PrunedAgreesWithHistory(crashes, t);
    RecentCounts(crashes, t);
    InWindowGrows(crashes, t, t);
  }

  /** The pruned state answers "is the cooldown on?" as the full history would. */
  lemma {:induction false} CooldownIsLoop(crashes: seq<real>, now: real)
    requires Ordered(crashes) && 0.0 <= now && (crashes != [] ==> crashes[|crashes| - 1] <= now)
    ensures Cooling(After(crashes), now) <==> Loop(crashes, now)
    decreases |crashes|
  {
    if crashes != [] {
      var n := |crashes| - 1;
      var pre, t := crashes[..n], crashes[n];
      assert pre + [t] == crashes;
      OrderedBefore(crashes);
      hide Ordered, InWindow, After, Loop;
      CooldownIsLoop(pre, now);
      RecordDecides(pre, t);
      if InWindow(crashes, t) >= CRASH_LIMIT {
        LoopRestarted(pre, t, now);
      } else {
        LoopUnchanged(pre, t, now);
      }
    }
  }

  lemma LoopRestarted(crashes: seq<real>, t: real, now: real)
    requires Ordered(crashes + [t]) && InWindow(crashes + [t], t) >= CRASH_LIMIT
    ensures Loop(crashes + [t], now) <==> now < t + COOLDOWN
  {
    var all := crashes + [t];
    assert all[|crashes|] == t;
    forall i | 0 <= i < |all| ensures all[i] <= t {
      assert i < |crashes| ==> all[i] <= all[|crashes|];
    }
  }

  lemma LoopUnchanged(crashes: seq<real>, t: real, now: real)
    requires Ordered(crashes + [t]) && InWindow(crashes + [t], t) < CRASH_LIMIT
    ensures Loop(crashes + [t], now) <==> Loop(crashes, now)
  {
    var all := crashes + [t];
    if Loop(all, now) {
      var i :| 0 <= i < |all| && now < all[i] + COOLDOWN && InWindow(all, all[i]) >= CRASH_LIMIT;
      assert all[i] <= all[|crashes|] == t;
      assert all[i] < t;
      InWindowGrows(crashes, t, all[i]);
      assert crashes[i] == all[i];
    }
    if Loop(crashes, now) {
      var i :| 0 <= i < |crashes| && now < crashes[i] + COOLDOWN && InWindow(crashes, crashes[i]) >= CRASH_LIMIT;
      InWindowGrows(crashes, t, crashes[i]);
      assert all[i] == crashes[i];
    }
  }

  // ----- the gated run -----

  datatype Payload = Forecasts | ChildException(error: string)

  /** What became of the spawned child: still alive at the timeout, or gone with an
      exit code and perhaps something in the queue. */
  datatype Child = Hung | Exited(code: Option<int>, payload: Option<Payload>)

  /** One call: when it looks at the cooldown, when its child is dealt with,
      whether isolation is on, the mode asked for, and what the child would do. */
  datatype Call = Call(checkedAt: real, endedAt: real, isolated: bool, safeMode: Option<bool>, child: Child)

  datatype Path =
    | InProcess(safe: bool)
    | FromChild(safe: bool)
    | Fallback(reason: Reason)

  datatype Reason =
    | SubprocessTimeout | NativeCrash(signal: int) | BadExit(code: Option<int>) | EmptyResult
    | ChildError(error: string)

  function ExitSignal(code: Option<int>): Option<int> {
    match code
    case None => None
    case Some(c) => if c < 0 then Some(-c) else if c > 128 then Some(c - 128) else None
  }

  datatype Runtime = Runtime(crashes: Pruned, safeMode: bool, nativeCrashes: nat)

  const COLD_START := Runtime(Pruned([], 0.0), false, 0)

  predicate Spawns(r: Runtime, c: Call) {
    !Cooling(r.crashes, c.checkedAt) && c.isolated
  }

  /** A child that ended by a signal counts as a native crash. */
  predicate DiesNatively(child: Child) {
    child.Exited? && child.code.Some? && (child.code.value < 0 || child.code.value > 128)
  }

  predicate Crashes(r: Runtime, c: Call) {
    Spawns(r, c) && DiesNatively(c.child)
  }

  function NextRuntime(r: Runtime, c: Call): Runtime {
    if !Crashes(r, c) then r
    else if ExitSignal(c.child.code) == Some(11) then
      Runtime(Record(r.crashes, c.endedAt), true, r.nativeCrashes + 1)
    else r.(crashes := Record(r.crashes, c.endedAt))
  }

  function RunCalls(calls: seq<Call>): Runtime {
    if calls == [] then COLD_START else NextRuntime(RunCalls(calls[..|calls| - 1]), calls[|calls| - 1])
  }

  /** When the native crashes of a run happened. */
  function CrashTimes(calls: seq<Call>): seq<real> {
    if calls == [] then []
    else
      var pre, c := calls[..|calls| - 1], calls[|calls| - 1];
      if Crashes(RunCalls(pre), c) then CrashTimes(pre) + [c.endedAt] else CrashTimes(pre)
  }

  /** Each call ends before the next one starts. */
  predicate Sequential(calls: seq<Call>) {
    && (forall k | 0 <= k < |calls| :: 0.0 <= calls[k].checkedAt <= calls[k].endedAt)
    && (forall j, k | 0 <= j < k < |calls| :: calls[j].endedAt <= calls[k].checkedAt)
  }

  lemma SequentialBefore(calls: seq<Call>)
    requires Sequential(calls) && calls != []
    ensures var pre, c := calls[..|calls| - 1], calls[|calls| - 1];
            && Sequential(pre) && 0.0 <= c.checkedAt <= c.endedAt
            && (pre != [] ==> pre[|pre| - 1].endedAt <= c.checkedAt)
  {
  }

  lemma OrderedExtend(t: seq<real>, e: real)
    requires Ordered(t) && 0.0 <= e && (t != [] ==> t[|t| - 1] <= e)
    ensures Ordered(t + [e])
  {
  }

  /** What one more call adds to the state and to the history. */
  lemma LastCall(calls: seq<Call>)
    requires calls != []
    ensures var pre, c := calls[..|calls| - 1], calls[|calls| - 1];
            var r := RunCalls(pre);
            && RunCalls(calls).crashes == (if Crashes(r, c) then Record(r.crashes, c.endedAt) else r.crashes)
            && CrashTimes(calls) == (if Crashes(r, c) then CrashTimes(pre) + [c.endedAt] else CrashTimes(pre))
  {
    hide Crashes, Record;
  }

  lemma {:induction false} CrashesAreOrdered(calls: seq<Call>)
    requires Sequential(calls)
    ensures var t := CrashTimes(calls);
            Ordered(t) && (t != [] ==> calls != [] && t[|t| - 1] <= calls[|calls| - 1].endedAt)
    ensures RunCalls(calls).crashes == After(CrashTimes(calls))
    decreases |calls|
  {
    if calls != [] {
      var pre, c := calls[..|calls| - 1], calls[|calls| - 1];
      var t := CrashTimes(pre);
      hide *;
      SequentialBefore(calls);
      CrashesAreOrdered(pre);
      LastCall(calls);
      OrderedExtend(t, c.endedAt);
      AfterExtend(t, c.endedAt);
    }
  }

  /** A call spawns a child exactly when isolation is on and the full history shows
      no crash loop at the time of the check. */
  lemma SpawnsExactlyOutsideLoops(calls: seq<Call>, c: Call)
    requires Sequential(calls + [c])
    ensures Spawns(RunCalls(calls), c) <==> c.isolated && !Loop(CrashTimes(calls), c.checkedAt)
  {
    assert (calls + [c])[|calls|] == c;
    assert forall k | 0 <= k < |calls| :: (calls + [c])[k] == calls[k];
    CrashesAreOrdered(calls);
    CooldownIsLoop(CrashTimes(calls), c.checkedAt);
  }

  /** The k-th call is let through, and its child ends by signal 11, as the process (-11)
      or a shell (139) tells. */
  ghost predicate Segfault(calls: seq<Call>, k: nat)
    requires k < |calls|
  {
    var c := calls[k];
    && c.isolated && !Loop(CrashTimes(calls[..k]), c.checkedAt)
    && c.child.Exited? && c.child.code in {Some(-11), Some(139)}
  }

  /** Safe mode is on exactly after a call whose child ended by signal 11. */
  lemma {:induction false} SafeModeExactlyAfterSegfault(calls: seq<Call>)
    requires Sequential(calls)
    ensures RunCalls(calls).safeMode <==> exists k :: 0 <= k < |calls| && Segfault(calls, k)
    decreases |calls|
  {
    if calls != [] {
      var n := |calls| - 1;
      var pre, c := calls[..n], calls[n];
      assert pre + [c] == calls;
      hide *;
      SequentialBefore(calls);
      SafeModeExactlyAfterSegfault(pre);
      LastSegfault(pre, c);
      SegfaultsExtend(calls);
    }
  }

  lemma SegfaultsExtend(calls: seq<Call>)
    requires calls != []
    ensures var n := |calls| - 1;
            (exists k :: 0 <= k < |calls| && Segfault(calls, k)) <==>
            (exists k :: 0 <= k < n && Segfault(calls[..n], k)) || Segfault(calls, n)
  {
    var n := |calls| - 1;
    hide *;
    forall k | 0 <= k < n ensures Segfault(calls, k) == Segfault(calls[..n], k) {
      EarlierSegfault(calls, k);
    }
  }

  lemma EarlierSegfault(calls: seq<Call>, k: nat)
    requires k < |calls| - 1
    ensures Segfault(calls, k) == Segfault(calls[..|calls| - 1], k)
  {
    assert calls[..|calls| - 1][..k] == calls[..k];
    hide CrashTimes, Loop;
  }

  lemma LastSegfault(pre: seq<Call>, c: Call)
    requires Sequential(pre + [c])
    ensures RunCalls(pre + [c]).safeMode <==> RunCalls(pre).safeMode || Segfault(pre + [c], |pre|)
  {
    SpawnsExactlyOutsideLoops(pre, c);
    assert (pre + [c])[..|pre|] == pre;
    hide Spawns, Record, Loop, CrashTimes, Sequential;
  }

  /** Three crashes in less than five minutes are followed by ten quiet minutes. */
  predicate Spaced(t: seq<real>) {
    forall i | 0 <= i < |t| - 3 :: t[i + 2] - t[i] < 300.0 ==> t[i + 3] >= t[i + 2] + 600.0
  }

  lemma InWindowStep(t: seq<real>, k: nat, hi: real)
    requires k < |t|
    ensures InWindow(t[..k + 1], hi) == InWindow(t[..k], hi) + (if hi - CRASH_WINDOW < t[k] <= hi then 1 else 0)
  {
    assert t[..k + 1][..k] == t[..k];
  }

  lemma LastThreeCount(t: seq<real>)
    requires Ordered(t) && |t| >= 3 && t[|t| - 1] - t[|t| - 3] < CRASH_WINDOW
    ensures InWindow(t, t[|t| - 1]) >= CRASH_LIMIT
  {
    hide InWindow;
    var n := |t|;
    var hi := t[n - 1];
    assert t[n - 3] <= t[n - 2] <= hi;
    hide *;
    InWindowStep(t, n - 3, hi);
    InWindowStep(t, n - 2, hi);
    InWindowStep(t, n - 1, hi);
    assert t[..n] == t;
  }

  lemma SpacedExtend(t: seq<real>, e: real)
    requires Spaced(t)
    requires |t| >= 3 && t[|t| - 1] - t[|t| - 3] < CRASH_WINDOW ==> t[|t| - 1] + COOLDOWN <= e
    ensures Spaced(t + [e])
  {
  }

  lemma SpacedSpans(t: seq<real>, i: nat, j: nat)
    requires Ordered(t) && Spaced(t) && i + 3 <= j < |t|
    ensures t[j] - t[i] >= CRASH_WINDOW
  {
    assert t[i] <= t[i + 2] <= t[i + 3] <= t[j];
  }

  lemma {:induction false} CrashesAreSpaced(calls: seq<Call>)
    requires Sequential(calls)
    ensures Spaced(CrashTimes(calls))
    decreases |calls|
  {
    if calls != [] {
      var pre, c := calls[..|calls| - 1], calls[|calls| - 1];
      var t := CrashTimes(pre);
      CrashesAreSpaced(pre);
      assert pre + [c] == calls;
      CrashesAreOrdered(pre);
      if Crashes(RunCalls(pre), c) {
        if |t| >= 3 && t[|t| - 1] - t[|t| - 3] < CRASH_WINDOW {
          SpawnsExactlyOutsideLoops(pre, c);
          LastThreeCount(t);
          assert t[|t| - 1] + COOLDOWN <= c.checkedAt;
        }
        SpacedExtend(t, c.endedAt);
      }
    }
  }

  /** With sequential calls, any four crashes span at least five minutes. */
  lemma AtMostThreeCrashesPerWindow(calls: seq<Call>, i: nat, j: nat)
    requires Sequential(calls) && i + 3 <= j < |CrashTimes(calls)|
    ensures CrashTimes(calls)[j] - CrashTimes(calls)[i] >= 300.0
  {
    hide CrashTimes, RunCalls, Ordered, Spaced;
    CrashesAreOrdered(calls);
    CrashesAreSpaced(calls);
    SpacedSpans(CrashTimes(calls), i, j);
  }

  // ----- the runtime object -----

  class ForecastRuntime {
    var crashTimestamps: seq<real>
    var subprocessCooldownUntil: real
    var forecastSafeModeActive: bool
    var nativeCrashCount: nat

    function State(): Runtime
      reads this
    {
      Runtime(Pruned(crashTimestamps, subprocessCooldownUntil), forecastSafeModeActive, nativeCrashCount)
    }

    constructor ()
      ensures State() == COLD_START
    {
      crashTimestamps, subprocessCooldownUntil := [], 0.0;
      forecastSafeModeActive, nativeCrashCount := false, 0;
    }

    method RecordSubprocessCrash(now: real)
      modifies this`crashTimestamps, this`subprocessCooldownUntil
      ensures State().crashes == Record(old(State().crashes), now)
    {
      var window := [];
      for i := 0 to |crashTimestamps|
        invariant window == Recent(crashTimestamps[..i], now)
      {
        assert crashTimestamps[..i + 1][..i] == crashTimestamps[..i];
        if now - crashTimestamps[i] < CRASH_WINDOW {
          window := window + [crashTimestamps[i]];
        }
      }
      assert crashTimestamps[..|crashTimestamps|] == crashTimestamps;
      window := window + [now];
      if |window| >= CRASH_LIMIT {
        subprocessCooldownUntil := now + COOLDOWN;
      }
      crashTimestamps := window;
    }

    method ActivateForecastSafeMode()
      modifies this`forecastSafeModeActive, this`nativeCrashCount
      ensures forecastSafeModeActive && nativeCrashCount == old(nativeCrashCount) + 1
    {
      forecastSafeModeActive := true;
      nativeCrashCount := nativeCrashCount + 1;
    }

    /** The gate, the spawn and the classification of the child's end. */
    method RunForecastingIsolated(c: Call) returns (path: Path)
      modifies this
      ensures State() == NextRuntime(old(State()), c)
      ensures var safe := if c.safeMode.Some? then c.safeMode.value else old(forecastSafeModeActive);
              if old(Cooling(State().crashes, c.checkedAt)) then path == InProcess(true)
              else if !c.isolated then path == InProcess(safe)
              else if c.child.Hung? then path == Fallback(SubprocessTimeout)
              else if c.child.code.Some? && c.child.code.value < 0
              then path == Fallback(NativeCrash(-c.child.code.value))
              else if c.child.code.Some? && c.child.code.value > 128
              then path == Fallback(NativeCrash(c.child.code.value - 128))
              else if c.child.code != Some(0) then path == Fallback(BadExit(c.child.code))
              else match c.child.payload
                case None => path == Fallback(EmptyResult)
                case Some(Forecasts) => path == FromChild(safe)
                case Some(ChildException(e)) => path == Fallback(ChildError(e))
    {
      if c.checkedAt < subprocessCooldownUntil {
        return InProcess(true);
      }
      var safe := if c.safeMode.Some? then c.safeMode.value else forecastSafeModeActive;
      if !c.isolated {
        return InProcess(safe);
      }
      if c.child.Hung? {
        return Fallback(SubprocessTimeout);
      }
      var signal := ExitSignal(c.child.code);
      if signal == Some(11) {
        RecordSubprocessCrash(c.endedAt);
        ActivateForecastSafeMode();
        return Fallback(NativeCrash(11));
      }
      if c.child.code !in {Some(0), None} && signal.Some? && signal.value != 0 {
        RecordSubprocessCrash(c.endedAt);
        return Fallback(NativeCrash(signal.value));
      }
      if c.child.code != Some(0) {
        return Fallback(BadExit(c.child.code));
      }
      match c.child.payload {
        case None => return Fallback(EmptyResult);
        case Some(Forecasts) => return FromChild(safe);
        case Some(ChildException(e)) => return Fallback(ChildError(e));
      }
    }
  }
}
