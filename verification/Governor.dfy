/** The crawl subprocess governor (worker/subprocess_governor.py).

    One run is a sequence of polls.  Each poll carries the three clock readings
    that one turn of the loop takes and the telemetry it read.  `Memory` holds
    the fields the governor keeps between polls; `Judge` is the ordered list of
    kill triggers.  The class at the end updates those fields step by step and
    is proved against these functions.
 */
module Governor {
  import opened Common

  datatype Limits = Limits(
    duplicateStreak: int, noInsert: real, staticPage: real, staticAirline: real,
    telemetryStatic: real, zeroThroughput: real, hardTimeout: real, heartbeat: real, graceful: real)

  const DEFAULTS := Limits(30, 180.0, 120.0, 300.0, 120.0, 120.0, 3600.0, 10.0, 15.0)

  /** No trigger but the first two is looked at before this age. */
  const WARM_UP := 30.0

  datatype CrawlState =
    | Running | RunningNoProgress | Saturated | Terminating | Terminated
    | Zombie | Stalled | Completed | CompletedDegraded

  datatype Trigger =
    | HardTimeout | ScrapySaturation | NoInserts | ReactorHanging | DuplicateStreak
    | StaticAirline | TelemetryFrozen | ZeroThroughput

  datatype Snapshot = Snapshot(
    pages: int, inserts: int, dupes: int, airline: string, throughput: real,
    saturated: bool, stalled: bool)

  /** What the telemetry hash is taken of.  The hash is taken to be injective,
      so the content stands for it; `None` is the initial empty hash. */
  datatype Content = Content(pages: int, inserts: int, dupes: int, airline: string)

  function ContentOf(s: Snapshot): Content {
    Content(s.pages, s.inserts, s.dupes, s.airline)
  }

  /** One loop turn: the clock when the age is taken, when the triggers are
      judged and when the state is updated. */
  datatype Poll = Poll(asked: real, judged: real, settled: real, snap: Snapshot)

  /** The clock readings of the constructor, in program order. */
  datatype Birth = Birth(
    started: real, insert: real, page: real, airline: real, content: real, throughput: real)

  datatype Memory = Memory(
    insertCount: int, insertTime: real, pageCount: int, pageTime: real,
    airline: string, airlineTime: real, content: Option<Content>, contentTime: real,
    throughputTime: real)

  function Newborn(b: Birth): Memory {
    Memory(0, b.insert, 0, b.page, "", b.airline, None, b.content, b.throughput)
  }

  predicate Counted(b: Birth, p: Poll) {
    p.asked - b.started >= WARM_UP
  }

  // ----- one poll -----

  function NoteInserts(m: Memory, p: Poll): Memory {
    if p.snap.inserts > m.insertCount
    then m.(insertCount := p.snap.inserts, insertTime := p.judged) else m
  }

  function NotePages(m: Memory, p: Poll): Memory {
    if p.snap.pages > m.pageCount
    then m.(pageCount := p.snap.pages, pageTime := p.judged) else m
  }

  function NoteAirline(m: Memory, p: Poll): Memory {
    if p.snap.airline != "" && p.snap.airline != m.airline
    then m.(airline := p.snap.airline, airlineTime := p.judged) else m
  }

  function NoteContent(m: Memory, p: Poll): Memory {
    if Some(ContentOf(p.snap)) != m.content
    then m.(content := Some(ContentOf(p.snap)), contentTime := p.judged) else m
  }

  function NoteThroughput(m: Memory, p: Poll): Memory {
    if p.snap.throughput > 0.0 then m.(throughputTime := p.judged) else m
  }

  function NoteAll(m: Memory, p: Poll): Memory {
    NoteThroughput(NoteContent(NoteAirline(NotePages(NoteInserts(m, p), p), p), p), p)
  }

  /** The streak test, on the counters already raised by this poll. */
  predicate OnlyDuplicates(m: Memory, s: Snapshot, limit: int) {
    && s.pages > 0 && s.inserts == m.insertCount && s.dupes > 0
    && (if m.insertCount > 0 then s.pages - m.pageCount else s.pages) > limit
  }

  predicate NoInsertFor(l: Limits, m: Memory, p: Poll) {
    p.snap.inserts <= m.insertCount && p.judged - m.insertTime > l.noInsert && p.snap.pages > 5
  }

  predicate PagesHung(l: Limits, m: Memory, p: Poll) {
    p.snap.pages <= m.pageCount && p.judged - m.pageTime > l.staticPage && p.snap.pages > 0
  }

  predicate AirlineStatic(l: Limits, m: Memory, p: Poll) {
    p.snap.airline != "" && p.snap.airline == m.airline && p.judged - m.airlineTime > l.staticAirline
  }

  predicate ContentFrozen(l: Limits, m: Memory, p: Poll) {
    Some(ContentOf(p.snap)) == m.content && p.judged - m.contentTime > l.telemetryStatic && p.snap.pages > 0
  }

  predicate NoThroughputFor(l: Limits, m: Memory, p: Poll) {
    p.snap.throughput <= 0.0 && p.judged - m.throughputTime > l.zeroThroughput && p.snap.pages > 5
  }

  /** The trigger that ends the run at this poll, if any, in the source's order. */
  function Judge(l: Limits, b: Birth, m: Memory, p: Poll): Option<Trigger> {
    var age := p.asked - b.started;
    if age > l.hardTimeout then Some(HardTimeout)
    else if p.snap.saturated then Some(ScrapySaturation)
    else if age < WARM_UP then None
    else if NoInsertFor(l, m, p) then Some(NoInserts)
    else if PagesHung(l, m, p) then Some(ReactorHanging)
    else if OnlyDuplicates(NotePages(NoteInserts(m, p), p), p.snap, l.duplicateStreak) then Some(DuplicateStreak)
    else if AirlineStatic(l, m, p) then Some(StaticAirline)
    else if ContentFrozen(l, m, p) then Some(TelemetryFrozen)
    else if NoThroughputFor(l, m, p) then Some(ZeroThroughput)
    else None
  }

  /** The fields as they stand after a poll with the given verdict: a trigger
      leaves the updates made before it was reached. */
  function Kept(b: Birth, m: Memory, p: Poll, verdict: Option<Trigger>): Memory {
    match verdict
    case None => if Counted(b, p) then NoteAll(m, p) else m
    case Some(ReactorHanging) => NoteInserts(m, p)
    case Some(DuplicateStreak) => NotePages(NoteInserts(m, p), p)
    case Some(StaticAirline) => NotePages(NoteInserts(m, p), p)
    case Some(TelemetryFrozen) => NoteAirline(NotePages(NoteInserts(m, p), p), p)
    case Some(ZeroThroughput) => NoteContent(NoteAirline(NotePages(NoteInserts(m, p), p), p), p)
    case Some(_) => m
  }

  /** The state shown after a poll that fired nothing. */
  function Progress(m: Memory, p: Poll): CrawlState {
    if p.snap.saturated then Saturated
    else if p.settled - m.insertTime > 60.0 && p.snap.pages > 5 then RunningNoProgress
    else if p.snap.stalled then Stalled
    else Running
  }

  // ----- whole runs -----

  /** The remembered fields after a run of polls none of which fired. */
  function Recall(b: Birth, h: seq<Poll>): Memory {
    if h == [] then Newborn(b)
    else
      var m := Recall(b, h[..|h| - 1]);
      if Counted(b, h[|h| - 1]) then NoteAll(m, h[|h| - 1]) else m
  }

  /** No poll of the run fired. */
  predicate Quiet(l: Limits, b: Birth, h: seq<Poll>) {
    h == []
    || (Quiet(l, b, h[..|h| - 1]) && Judge(l, b, Recall(b, h[..|h| - 1]), h[|h| - 1]).None?)
  }

  /** The clock never runs backwards. */
  predicate Orderly(b: Birth, h: seq<Poll>) {
    && b.started <= b.insert <= b.page <= b.airline <= b.content <= b.throughput
    && (forall k | 0 <= k < |h| :: b.throughput <= h[k].asked <= h[k].judged <= h[k].settled)
    && (forall j, k | 0 <= j < k < |h| :: h[j].settled <= h[k].asked)
  }

  lemma OrderlyBefore(b: Birth, h: seq<Poll>, p: Poll)
    requires Orderly(b, h + [p])
    ensures Orderly(b, h)
    ensures b.throughput <= p.asked <= p.judged <= p.settled
    ensures forall k | 0 <= k < |h| :: h[k].settled <= p.asked
  {
    var g := h + [p];
    assert g[|h|] == p;
    forall k | 0 <= k < |h| ensures g[k] == h[k] && g[k].settled <= g[|h|].asked {}
  }

  // ----- the remembered fields as functions of the history -----

  /** A value read and the time it was judged at. */
  datatype Reading<T> = Reading(value: T, time: real)

  /** The insert counts of the counted polls, in order. */
  function InsertReadings(b: Birth, h: seq<Poll>): seq<Reading<int>> {
    if h == [] then []
    else
      var r, p := InsertReadings(b, h[..|h| - 1]), h[|h| - 1];
      if Counted(b, p) then r + [Reading(p.snap.inserts, p.judged)] else r
  }

  /** The page counts of the counted polls, in order. */
  function PageReadings(b: Birth, h: seq<Poll>): seq<Reading<int>> {
    if h == [] then []
    else
      var r, p := PageReadings(b, h[..|h| - 1]), h[|h| - 1];
      if Counted(b, p) then r + [Reading(p.snap.pages, p.judged)] else r
  }

  /** What was hashed at the counted polls, in order. */
  function ContentReadings(b: Birth, h: seq<Poll>): seq<Reading<Content>> {
    if h == [] then []
    else
      var r, p := ContentReadings(b, h[..|h| - 1]), h[|h| - 1];
      if Counted(b, p) then r + [Reading(ContentOf(p.snap), p.judged)] else r
  }

  /** The airlines named at counted polls, in order; unnamed ones are passed over. */
  function AirlineReadings(b: Birth, h: seq<Poll>): seq<Reading<string>> {
    if h == [] then []
    else
      var r, p := AirlineReadings(b, h[..|h| - 1]), h[|h| - 1];
      if Counted(b, p) && p.snap.airline != "" then r + [Reading(p.snap.airline, p.judged)] else r
  }

  /** The counted polls with a positive throughput, in order. */
  function ActiveReadings(b: Birth, h: seq<Poll>): seq<Reading<real>> {
    if h == [] then []
    else
      var r, p := ActiveReadings(b, h[..|h| - 1]), h[|h| - 1];
      if Counted(b, p) && p.snap.throughput > 0.0 then r + [Reading(p.snap.throughput, p.judged)] else r
  }

  /** `value` is the greatest of 0 and the readings, and `time` is when it was
      first reached, or `start` if nothing rose above 0. */
  ghost predicate Peak(r: seq<Reading<int>>, value: int, time: real, start: real) {
    && value >= 0
    && (forall i | 0 <= i < |r| :: r[i].value <= value)
    && if value == 0 then time == start
       else exists i :: 0 <= i < |r| && r[i] == Reading(value, time) && FirstAt(r, value, i)
  }

  ghost predicate FirstAt(r: seq<Reading<int>>, value: int, i: nat)
    requires i < |r|
  {
    forall j | 0 <= j < i :: r[j].value < value
  }

  /** From some `i` on all readings are `value`, the one before `i` was not, and
      `time` is when `i` was taken. */
  ghost predicate Stretch<T(!new)>(r: seq<Reading<T>>, value: T, time: real) {
    exists i :: 0 <= i < |r| && r[i].time == time && StretchFrom(r, value, i)
  }

  ghost predicate StretchFrom<T(!new)>(r: seq<Reading<T>>, value: T, i: nat)
    requires i < |r|
  {
    && (forall j | i <= j < |r| :: r[j].value == value)
    && (i > 0 ==> r[i - 1].value != value)
  }

  lemma PeakGrows(r: seq<Reading<int>>, x: Reading<int>, value: int, time: real, start: real)
    requires Peak(r, value, time, start)
    ensures if x.value > value then Peak(r + [x], x.value, x.time, start) else Peak(r + [x], value, time, start)
  {
    var s := r + [x];
    if x.value > value {
      assert s[|r|] == x && FirstAt(s, x.value, |r|);
    } else if value > 0 {
      var i :| 0 <= i < |r| && r[i] == Reading(value, time) && FirstAt(r, value, i);
      assert s[i] == r[i] && FirstAt(s, value, i);
    }
  }

  lemma StretchGrows<T(!new)>(r: seq<Reading<T>>, x: Reading<T>, value: T, time: real)
    requires r == [] || Stretch(r, value, time)
    ensures if r == [] || x.value != value then Stretch(r + [x], x.value, x.time) else Stretch(r + [x], value, time)
  {
    var s := r + [x];
    assert s[|r|] == x;
    if r != [] {
      var i :| 0 <= i < |r| && r[i].time == time && StretchFrom(r, value, i);
      assert s[i] == r[i] && s[|r| - 1] == r[|r| - 1];
      if x.value == value {
        assert StretchFrom(s, value, i);
      } else {
        assert StretchFrom(s, x.value, |r|);
      }
    } else {
      assert StretchFrom(s, x.value, |r|);
    }
  }

  lemma {:induction false} InsertsAreFaithful(b: Birth, h: seq<Poll>)
    ensures Peak(InsertReadings(b, h), Recall(b, h).insertCount, Recall(b, h).insertTime, b.insert)
    decreases |h|
  {
    if h != [] {
      var pre, p := h[..|h| - 1], h[|h| - 1];
      var m := Recall(b, pre);
      InsertsAreFaithful(b, pre);
      PeakGrows(InsertReadings(b, pre), Reading(p.snap.inserts, p.judged), m.insertCount, m.insertTime, b.insert);
    }
  }

  lemma {:induction false} PagesAreFaithful(b: Birth, h: seq<Poll>)
    ensures Peak(PageReadings(b, h), Recall(b, h).pageCount, Recall(b, h).pageTime, b.page)
    decreases |h|
  {
    if h != [] {
      var pre, p := h[..|h| - 1], h[|h| - 1];
      var m := Recall(b, pre);
      PagesAreFaithful(b, pre);
      PeakGrows(PageReadings(b, pre), Reading(p.snap.pages, p.judged), m.pageCount, m.pageTime, b.page);
    }
  }

  lemma {:induction false} ContentIsFaithful(b: Birth, h: seq<Poll>)
    ensures var m, r := Recall(b, h), ContentReadings(b, h);
            if r == [] then m.content.None? && m.contentTime == b.content
            else m.content.Some? && Stretch(r, m.content.value, m.contentTime)
    decreases |h|
  {
    if h != [] {
      var pre, p := h[..|h| - 1], h[|h| - 1];
      var m, r := Recall(b, pre), ContentReadings(b, pre);
      ContentIsFaithful(b, pre);
      StretchGrows(r, Reading(ContentOf(p.snap), p.judged),
                   if r == [] then ContentOf(p.snap) else m.content.value, m.contentTime);
    }
  }

  lemma {:induction false} AirlineIsFaithful(b: Birth, h: seq<Poll>)
    ensures var m, r := Recall(b, h), AirlineReadings(b, h);
            if r == [] then m.airline == "" && m.airlineTime == b.airline
            else m.airline != "" && Stretch(r, m.airline, m.airlineTime)
    decreases |h|
  {
    if h != [] {
      var pre, p := h[..|h| - 1], h[|h| - 1];
      var m, r := Recall(b, pre), AirlineReadings(b, pre);
      AirlineIsFaithful(b, pre);
      StretchGrows(r, Reading(p.snap.airline, p.judged), m.airline, m.airlineTime);
    }
  }

  lemma {:induction false} ThroughputIsFaithful(b: Birth, h: seq<Poll>)
    ensures var r := ActiveReadings(b, h);
            Recall(b, h).throughputTime == if r == [] then b.throughput else r[|r| - 1].time
    decreases |h|
  {
    if h != [] {
      ThroughputIsFaithful(b, h[..|h| - 1]);
    }
  }

  // ----- the verdict as a function of the history -----

  lemma PeakIsHighest(r: seq<Reading<int>>, v: int, s: real, v': int, s': real, start: real)
    requires Peak(r, v, s, start) && Peak(r, v', s', start)
    ensures v <= v'
  {
    if v > 0 {
      var i :| 0 <= i < |r| && r[i] == Reading(v, s) && FirstAt(r, v, i);
      assert r[i].value <= v';
    }
  }

  lemma PeakIsUnique(r: seq<Reading<int>>, v: int, s: real, v': int, s': real, start: real)
    requires Peak(r, v, s, start) && Peak(r, v', s', start)
    ensures v == v' && s == s'
  {
    PeakIsHighest(r, v, s, v', s', start);
    PeakIsHighest(r, v', s', v, s, start);
    if v > 0 {
      var i :| 0 <= i < |r| && r[i] == Reading(v, s) && FirstAt(r, v, i);
      var j :| 0 <= j < |r| && r[j] == Reading(v', s') && FirstAt(r, v', j);
    }
  }

  lemma StretchIsUnique<T(!new)>(r: seq<Reading<T>>, v: T, s: real, v': T, s': real)
    requires Stretch(r, v, s) && Stretch(r, v', s')
    ensures v == v' && s == s'
  {
    var i :| 0 <= i < |r| && r[i].time == s && StretchFrom(r, v, i);
    var j :| 0 <= j < |r| && r[j].time == s' && StretchFrom(r, v', j);
    assert r[|r| - 1].value == v == v';
    if i > 0 { assert r[i - 1].value != v; }
    if j > 0 { assert r[j - 1].value != v; }
  }

  /** No rise of the inserts for longer than the limit, with more than five pages. */
  ghost predicate InsertsStopped(l: Limits, b: Birth, h: seq<Poll>, p: Poll) {
    p.snap.pages > 5 &&
    exists top, time ::
      Peak(InsertReadings(b, h), top, time, b.insert) && p.snap.inserts <= top && p.judged - time > l.noInsert
  }

  /** No rise of the pages for longer than the limit, with some page. */
  ghost predicate PagesStopped(l: Limits, b: Birth, h: seq<Poll>, p: Poll) {
    p.snap.pages > 0 &&
    exists top, time ::
      Peak(PageReadings(b, h), top, time, b.page) && p.snap.pages <= top && p.judged - time > l.staticPage
  }

  /** Duplicates, with the inserts at their peak so far and, if that is not 0, the pages
      above their peak so far by more than the limit. */
  ghost predicate StreakShown(l: Limits, b: Birth, h: seq<Poll>, p: Poll) {
    p.snap.pages > 0 && p.snap.dupes > 0 &&
    exists inserts, since, pages, from ::
      && Peak(InsertReadings(b, h + [p]), inserts, since, b.insert)
      && Peak(PageReadings(b, h + [p]), pages, from, b.page)
      && p.snap.inserts == inserts
      && (if inserts == 0 then p.snap.pages else p.snap.pages - pages) > l.duplicateStreak
  }

  /** The unbroken stretch of readings that name the airline began too long ago. */
  ghost predicate AirlineStays(l: Limits, b: Birth, h: seq<Poll>, p: Poll) {
    p.snap.airline != "" &&
    exists time :: Stretch(AirlineReadings(b, h), p.snap.airline, time) && p.judged - time > l.staticAirline
  }

  /** The unbroken stretch of readings with the same content began too long ago. */
  ghost predicate ContentStays(l: Limits, b: Birth, h: seq<Poll>, p: Poll) {
    p.snap.pages > 0 &&
    exists time ::
      && Stretch(ContentReadings(b, h),
                 Content(p.snap.pages, p.snap.inserts, p.snap.dupes, p.snap.airline), time)
      && p.judged - time > l.telemetryStatic
  }

  /** No throughput, and the last reading with some was too long ago. */
  ghost predicate ThroughputStopped(l: Limits, b: Birth, h: seq<Poll>, p: Poll) {
    p.snap.throughput <= 0.0 && p.snap.pages > 5 &&
    var r := ActiveReadings(b, h);
    p.judged - (if r == [] then b.throughput else r[|r| - 1].time) > l.zeroThroughput
  }

  /** What the readings of a run show at a poll, trigger by trigger. */
  ghost predicate Shows(l: Limits, b: Birth, h: seq<Poll>, p: Poll, t: Trigger) {
    match t
    case HardTimeout => p.asked - b.started > l.hardTimeout
    case ScrapySaturation => p.snap.saturated
    case NoInserts => InsertsStopped(l, b, h, p)
    case ReactorHanging => PagesStopped(l, b, h, p)
    case DuplicateStreak => StreakShown(l, b, h, p)
    case StaticAirline => AirlineStays(l, b, h, p)
    case TelemetryFrozen => ContentStays(l, b, h, p)
    case ZeroThroughput => ThroughputStopped(l, b, h, p)
  }

  const ORDER := [HardTimeout, ScrapySaturation, NoInserts, ReactorHanging, DuplicateStreak, StaticAirline,
                  TelemetryFrozen, ZeroThroughput]

  /** The k-th trigger is looked at and shown: all but the first two not before the
      thirtieth second. */
  ghost predicate Shown(l: Limits, b: Birth, h: seq<Poll>, p: Poll, k: nat)
    requires k < 8
  {
    Shows(l, b, h, p, ORDER[k]) && (k < 2 || p.asked - b.started >= 30.0)
  }

  lemma InsertsAsRecalled(l: Limits, b: Birth, h: seq<Poll>, p: Poll)
    ensures InsertsStopped(l, b, h, p) <==> NoInsertFor(l, Recall(b, h), p)
  {
    var m := Recall(b, h);
    InsertsAreFaithful(b, h);
    hide InsertReadings, Recall, Peak;
    forall top, time | Peak(InsertReadings(b, h), top, time, b.insert)
      ensures top == m.insertCount && time == m.insertTime
    {
      PeakIsUnique(InsertReadings(b, h), top, time, m.insertCount, m.insertTime, b.insert);
    }
  }

  lemma PagesAsRecalled(l: Limits, b: Birth, h: seq<Poll>, p: Poll)
    ensures PagesStopped(l, b, h, p) <==> PagesHung(l, Recall(b, h), p)
  {
    var m := Recall(b, h);
    PagesAreFaithful(b, h);
    hide PageReadings, Recall, Peak;
    forall top, time | Peak(PageReadings(b, h), top, time, b.page)
      ensures top == m.pageCount && time == m.pageTime
    {
      PeakIsUnique(PageReadings(b, h), top, time, m.pageCount, m.pageTime, b.page);
    }
  }

  lemma StreakAsRecalled(l: Limits, b: Birth, h: seq<Poll>, p: Poll)
    requires Counted(b, p)
    ensures StreakShown(l, b, h, p) <==>
              OnlyDuplicates(NotePages(NoteInserts(Recall(b, h), p), p), p.snap, l.duplicateStreak)
  {
    var m, g := Recall(b, h), h + [p];
    var n := Recall(b, g);
    assert g[..|h|] == h && g[|h|] == p;
    assert n == NoteAll(m, p);
    InsertsAreFaithful(b, g);
    PagesAreFaithful(b, g);
    assert n.insertCount >= 0;
    hide InsertReadings, PageReadings, Recall, Peak;
    forall top, time | Peak(InsertReadings(b, g), top, time, b.insert) ensures top == n.insertCount {
      PeakIsUnique(InsertReadings(b, g), top, time, n.insertCount, n.insertTime, b.insert);
    }
    forall top, time | Peak(PageReadings(b, g), top, time, b.page) ensures top == n.pageCount {
      PeakIsUnique(PageReadings(b, g), top, time, n.pageCount, n.pageTime, b.page);
    }
  }

  lemma AirlineAsRecalled(l: Limits, b: Birth, h: seq<Poll>, p: Poll)
    ensures AirlineStays(l, b, h, p) <==> AirlineStatic(l, Recall(b, h), p)
  {
    var m, r := Recall(b, h), AirlineReadings(b, h);
    AirlineIsFaithful(b, h);
    assert !Stretch([], p.snap.airline, m.airlineTime);
    hide AirlineReadings, Recall;
    forall time | Stretch(r, p.snap.airline, time) ensures p.snap.airline == m.airline && time == m.airlineTime {
      if r != [] {
        StretchIsUnique(r, p.snap.airline, time, m.airline, m.airlineTime);
      }
    }
  }

  lemma ContentAsRecalled(l: Limits, b: Birth, h: seq<Poll>, p: Poll)
    ensures ContentStays(l, b, h, p) <==> ContentFrozen(l, Recall(b, h), p)
  {
    var m, r, c := Recall(b, h), ContentReadings(b, h), ContentOf(p.snap);
    ContentIsFaithful(b, h);
    hide ContentReadings, Recall;
    forall time | Stretch(r, c, time) ensures Some(c) == m.content && time == m.contentTime {
      if r != [] {
        StretchIsUnique(r, c, time, m.content.value, m.contentTime);
      }
    }
  }

  lemma ThroughputAsRecalled(l: Limits, b: Birth, h: seq<Poll>, p: Poll)
    ensures ThroughputStopped(l, b, h, p) <==> NoThroughputFor(l, Recall(b, h), p)
  {
    ThroughputIsFaithful(b, h);
  }

  /** The verdict at a poll is the first trigger, in order, that the readings show. */
  lemma VerdictIsFirstShown(l: Limits, b: Birth, h: seq<Poll>, p: Poll)
    ensures forall k: nat | k < 8 ::
              Judge(l, b, Recall(b, h), p) == Some(ORDER[k]) <==>
              Shown(l, b, h, p, k) && forall j: nat | j < k :: !Shown(l, b, h, p, j)
    ensures Judge(l, b, Recall(b, h), p).None? <==> forall k: nat | k < 8 :: !Shown(l, b, h, p, k)
  {
    InsertsAsRecalled(l, b, h, p);
    PagesAsRecalled(l, b, h, p);
    AirlineAsRecalled(l, b, h, p);
    ContentAsRecalled(l, b, h, p);
    ThroughputAsRecalled(l, b, h, p);
    if Counted(b, p) {
      StreakAsRecalled(l, b, h, p);
    }
    VerdictInOrder(l, b, h, p, Recall(b, h));
  }

  lemma VerdictInOrder(l: Limits, b: Birth, h: seq<Poll>, p: Poll, m: Memory)
    requires InsertsStopped(l, b, h, p) <==> NoInsertFor(l, m, p)
    requires PagesStopped(l, b, h, p) <==> PagesHung(l, m, p)
    requires Counted(b, p) ==>
               (StreakShown(l, b, h, p) <==>
                OnlyDuplicates(NotePages(NoteInserts(m, p), p), p.snap, l.duplicateStreak))
    requires AirlineStays(l, b, h, p) <==> AirlineStatic(l, m, p)
    requires ContentStays(l, b, h, p) <==> ContentFrozen(l, m, p)
    requires ThroughputStopped(l, b, h, p) <==> NoThroughputFor(l, m, p)
    ensures forall k: nat | k < 8 ::
              Judge(l, b, m, p) == Some(ORDER[k]) <==>
              Shown(l, b, h, p, k) && forall j: nat | j < k :: !Shown(l, b, h, p, j)
    ensures Judge(l, b, m, p).None? <==> forall k: nat | k < 8 :: !Shown(l, b, h, p, k)
  {
    hide InsertsStopped, PagesStopped, StreakShown, AirlineStays, ContentStays, ThroughputStopped;
    hide NoInsertFor, PagesHung, OnlyDuplicates, AirlineStatic, ContentFrozen, NoThroughputFor;
    assert ORDER[0] == HardTimeout && ORDER[1] == ScrapySaturation && ORDER[2] == NoInserts;
    assert ORDER[3] == ReactorHanging && ORDER[4] == DuplicateStreak && ORDER[5] == StaticAirline;
    assert ORDER[6] == TelemetryFrozen && ORDER[7] == ZeroThroughput;
    var verdict := Judge(l, b, m, p);
    assert forall k: nat | k < 8 && Shown(l, b, h, p, k) :: verdict.Some?;
    if verdict.Some? {
      var n: nat :| n < 8 && verdict.value == ORDER[n];
      assert Shown(l, b, h, p, n) && forall j: nat | j < n :: !Shown(l, b, h, p, j);
      forall k: nat | k < 8
        ensures verdict == Some(ORDER[k]) <==> Shown(l, b, h, p, k) && forall j: nat | j < k :: !Shown(l, b, h, p, j)
      {
        assert k < n || k == n || n < k;
      }
    }
  }

  /** A trigger leaves the updates of the checks before it, and no other. */
  lemma VerdictKeepsEarlierUpdates(b: Birth, m: Memory, p: Poll, k: nat)
    requires k < 8
    ensures var x, all := Kept(b, m, p, Some(ORDER[k])), NoteAll(m, p);
            && x.insertCount == (if k > 2 then all else m).insertCount
            && x.insertTime == (if k > 2 then all else m).insertTime
            && x.pageCount == (if k > 3 then all else m).pageCount
            && x.pageTime == (if k > 3 then all else m).pageTime
            && x.airline == (if k > 5 then all else m).airline
            && x.airlineTime == (if k > 5 then all else m).airlineTime
            && x.content == (if k > 6 then all else m).content
            && x.contentTime == (if k > 6 then all else m).contentTime
            && x.throughputTime == m.throughputTime
  {
  }

  /** The state shown after a poll, by the readings up to it: no progress when the last
      insert is more than a minute past. */
  lemma StateByReadings(b: Birth, h: seq<Poll>, p: Poll, top: int, time: real)
    requires !p.snap.saturated && Peak(InsertReadings(b, h + [p]), top, time, b.insert)
    ensures Progress(Recall(b, h + [p]), p) ==
              if p.snap.pages > 5 && p.settled > time + 60.0 then RunningNoProgress
              else if p.snap.stalled then Stalled else Running
  {
    var m := Recall(b, h + [p]);
    InsertsAreFaithful(b, h + [p]);
    hide Recall, InsertReadings, Peak;
    PeakIsUnique(InsertReadings(b, h + [p]), top, time, m.insertCount, m.insertTime, b.insert);
  }

  // ----- every run is bounded -----

  predicate Paced(l: Limits, h: seq<Poll>) {
    forall k | 0 < k < |h| :: h[k].asked >= h[k - 1].asked + l.heartbeat
  }

  /** The time `k` heartbeats take. */
  function Beats(k: nat, heartbeat: real): real {
    if k == 0 then 0.0 else Beats(k - 1, heartbeat) + heartbeat
  }

  lemma {:induction false} BeatsFit(k: nat, heartbeat: real, limit: real)
    requires heartbeat > 0.0 && Beats(k, heartbeat) <= limit
    ensures k <= (limit / heartbeat).Floor
  {
    BeatsMultiply(k, heartbeat);
    var q := limit / heartbeat;
    assert q * heartbeat == limit;
    assert k as real > q ==> (k as real - q) * heartbeat > 0.0;
  }

  lemma {:induction false} BeatsMultiply(k: nat, heartbeat: real)
    ensures Beats(k, heartbeat) == k as real * heartbeat
  {
    if k > 0 {
      BeatsMultiply(k - 1, heartbeat);
      assert k as real * heartbeat == (k - 1) as real * heartbeat + heartbeat;
    }
  }

  lemma {:induction false} PacedApart(l: Limits, h: seq<Poll>, k: nat)
    requires Paced(l, h) && k < |h|
    ensures h[k].asked >= h[0].asked + Beats(k, l.heartbeat)
  {
    if k > 0 {
      PacedApart(l, h, k - 1);
    }
  }

  lemma LastSurvivorIsYoung(l: Limits, b: Birth, h: seq<Poll>)
    requires Quiet(l, b, h) && Orderly(b, h) && h != []
    ensures h[|h| - 1].asked - h[0].asked <= l.hardTimeout
  {
    assert b.throughput <= h[0].asked;
  }

  /** However long the child would live, at most hardTimeout/heartbeat + 1 polls
      pass without a kill. */
  lemma RunIsBounded(l: Limits, b: Birth, h: seq<Poll>)
    requires Quiet(l, b, h) && Orderly(b, h) && Paced(l, h) && l.heartbeat > 0.0
    ensures h != [] ==> l.hardTimeout >= 0.0 && |h| <= (l.hardTimeout / l.heartbeat).Floor + 1
  {
    if h != [] {
      var n := |h| - 1;
      PacedApart(l, h, n);
      LastSurvivorIsYoung(l, b, h);
      BeatsFit(n, l.heartbeat, l.hardTimeout);
    }
  }

  /** A poll past the warm-up and more than `noInsert` after the last insert, with no
      new insert and more than five pages, ends the run: its trigger is among the first
      three. */
  lemma IdleCrawlIsStopped(l: Limits, b: Birth, h: seq<Poll>, p: Poll)
    requires Orderly(b, h + [p]) && Counted(b, p)
    requires p.asked - Recall(b, h).insertTime > l.noInsert
    requires p.snap.inserts <= Recall(b, h).insertCount && p.snap.pages > 5
    ensures Judge(l, b, Recall(b, h), p) in {Some(HardTimeout), Some(ScrapySaturation), Some(NoInserts)}
  {
    OrderlyBefore(b, h, p);
  }

  /** With a limit of at least the warm-up, as by default, such a poll is always past
      the warm-up. */
  lemma IdlePollIsCounted(l: Limits, b: Birth, h: seq<Poll>, p: Poll)
    requires Orderly(b, h + [p]) && l.noInsert >= WARM_UP
    requires p.asked - Recall(b, h).insertTime > l.noInsert
    ensures Counted(b, p)
  {
    OrderlyBefore(b, h, p);
    InsertTimeIsLate(b, h);
  }

  lemma {:induction false} InsertTimeIsLate(b: Birth, h: seq<Poll>)
    requires Orderly(b, h)
    ensures Recall(b, h).insertTime >= b.started
    decreases |h|
  {
    if h != [] {
      var n := |h| - 1;
      assert h[..n] + [h[n]] == h;
      OrderlyBefore(b, h[..n], h[n]);
      InsertTimeIsLate(b, h[..n]);
    }
  }

  lemma IdleStep(l: Limits, b: Birth, h: seq<Poll>, p: Poll)
    requires Orderly(b, h + [p])
    requires Judge(l, b, Recall(b, h), p).None?
    requires p.snap.inserts <= Recall(b, h).insertCount && p.snap.pages > 5
    ensures Counted(b, p) ==> p.asked - Recall(b, h).insertTime <= l.noInsert
    ensures Recall(b, h + [p]).insertTime == Recall(b, h).insertTime
    ensures Recall(b, h + [p]).insertCount == Recall(b, h).insertCount
  {
    assert (h + [p])[..|h|] == h && (h + [p])[|h|] == p;
    if Counted(b, p) && p.asked - Recall(b, h).insertTime > l.noInsert {
      IdleCrawlIsStopped(l, b, h, p);
    }
  }

  /** Once the insert count stops rising and more than five pages are read, no
      poll past the warm-up and more than `noInsert` after the last rise is survived. */
  lemma {:induction false} SilenceIsBounded(l: Limits, b: Birth, h: seq<Poll>, from: nat, peak: Memory)
    requires Quiet(l, b, h) && Orderly(b, h)
    requires from <= |h| && peak == Recall(b, h[..from])
    requires forall j | from <= j < |h| :: h[j].snap.pages > 5 && h[j].snap.inserts <= peak.insertCount
    ensures Recall(b, h).insertTime == peak.insertTime && Recall(b, h).insertCount == peak.insertCount
    ensures forall j | from <= j < |h| && Counted(b, h[j]) :: h[j].asked - peak.insertTime <= l.noInsert
    decreases |h|
  {
    if from == |h| {
      assert h[..from] == h;
    } else {
      var n := |h| - 1;
      var pre, p := h[..n], h[n];
      assert pre[..from] == h[..from];
      assert pre + [p] == h;
      OrderlyBefore(b, pre, p);
      SilenceIsBounded(l, b, pre, from, peak);
      IdleStep(l, b, pre, p);
    }
  }

  // ----- the frozen-telemetry trigger -----

  ghost predicate Fires(l: Limits, t: Trigger) {
    exists b, h, p :: FiresAt(l, b, h, p, t)
  }

  ghost predicate FiresAt(l: Limits, b: Birth, h: seq<Poll>, p: Poll, t: Trigger) {
    Orderly(b, h + [p]) && Quiet(l, b, h) && Judge(l, b, Recall(b, h), p) == Some(t)
  }

  lemma {:induction false} ContentTimeIsPast(b: Birth, h: seq<Poll>, p: Poll)
    requires Orderly(b, h + [p])
    ensures Recall(b, h).contentTime <= p.asked
    decreases |h|
  {
    OrderlyBefore(b, h, p);
    if h != [] {
      var n := |h| - 1;
      assert h[..n] + [h[n]] == h;
      ContentTimeIsPast(b, h[..n], h[n]);
    }
  }

  /** Page growth is never remembered later than a content change, and the pages
      last hashed never exceed the page count. */
  lemma {:induction false} PagesAreNoNewerThanContent(b: Birth, h: seq<Poll>)
    requires Orderly(b, h)
    ensures var m := Recall(b, h);
            m.pageTime <= m.contentTime && (m.content.Some? ==> m.content.value.pages <= m.pageCount)
    decreases |h|
  {
    if h != [] {
      var n := |h| - 1;
      assert h[..n] + [h[n]] == h;
      OrderlyBefore(b, h[..n], h[n]);
      ContentTimeIsPast(b, h[..n], h[n]);
      PagesAreNoNewerThanContent(b, h[..n]);
    }
  }

  /** `telemetry_frozen` can be the verdict of some run exactly when its limit is
      below the page limit (and the run can get that far); with the defaults the
      two limits are equal and it never is. */
  lemma FrozenFiresExactlyWhen(l: Limits)
    ensures Fires(l, TelemetryFrozen) <==>
              l.telemetryStatic < l.staticPage && l.staticPage >= 0.0 && l.hardTimeout >= WARM_UP
  {
    if l.telemetryStatic < l.staticPage && l.staticPage >= 0.0 && l.hardTimeout >= WARM_UP {
      var b := Birth(0.0, 0.0, 0.0, 0.0, 0.0, 0.0);
      var s := Snapshot(1, 0, 0, "", 1.0, false, false);
      var p := Poll(WARM_UP, WARM_UP, WARM_UP, s);
      var late := WARM_UP + l.staticPage;
      var q := Poll(WARM_UP, late, late, s);
      assert [p][..0] == [] && [p][0] == p && [p] + [q] == [p, q];
      assert Judge(l, b, Newborn(b), p).None?;
      assert Recall(b, [p]) == Memory(0, 0.0, 1, WARM_UP, "", 0.0, Some(ContentOf(s)), WARM_UP, WARM_UP);
      assert Judge(l, b, Memory(0, 0.0, 1, WARM_UP, "", 0.0, Some(ContentOf(s)), WARM_UP, WARM_UP), q)
          == Some(TelemetryFrozen);
      assert FiresAt(l, b, [p], q, TelemetryFrozen);
    }
    forall b, h, p | FiresAt(l, b, h, p, TelemetryFrozen)
      ensures l.telemetryStatic < l.staticPage && l.staticPage >= 0.0 && l.hardTimeout >= WARM_UP
    {
      OrderlyBefore(b, h, p);
      ContentTimeIsPast(b, h, p);
      PagesAreNoNewerThanContent(b, h);
    }
  }

  // ----- the duplicate-streak trigger -----

  /** Whatever the number of duplicate pages, the streak trigger is dead once one
      insert has been counted; until then it looks at the page total alone. */
  lemma StreakNeedsNoInsert(l: Limits, b: Birth, h: seq<Poll>, p: Poll)
    requires l.duplicateStreak >= 0
    ensures Judge(l, b, Recall(b, h), p) == Some(DuplicateStreak) ==>
              && (forall i | 0 <= i < |InsertReadings(b, h)| :: InsertReadings(b, h)[i].value <= 0)
              && p.snap.inserts == 0 && p.snap.pages > l.duplicateStreak && p.snap.dupes > 0
    ensures (forall i | 0 <= i < |InsertReadings(b, h)| :: InsertReadings(b, h)[i].value <= 0)
            && p.snap.inserts == 0 && p.snap.pages > l.duplicateStreak && p.snap.dupes > 0
            && Counted(b, p) ==>
              Judge(l, b, Recall(b, h), p) in
                {Some(HardTimeout), Some(ScrapySaturation), Some(NoInserts), Some(ReactorHanging),
                 Some(DuplicateStreak)}
  {
    InsertsAreFaithful(b, h);
    var m, r := Recall(b, h), InsertReadings(b, h);
    if m.insertCount > 0 {
      var i :| 0 <= i < |r| && r[i] == Reading(m.insertCount, m.insertTime) && FirstAt(r, m.insertCount, i);
    }
  }

  /** The poll or an earlier counted one reads an insert. */
  ghost predicate InsertSeen(b: Birth, h: seq<Poll>, p: Poll) {
    p.snap.inserts > 0 || exists i :: 0 <= i < |InsertReadings(b, h)| && InsertReadings(b, h)[i].value > 0
  }

  /** `duplicate_streak` never fires once an insert was read, in any run, exactly when
      its limit is not negative (or the hard timeout lets no run get that far): the page
      counter that it subtracts was just raised to the pages. */
  lemma StreakExactlyWithoutInserts(l: Limits)
    ensures (forall b, h, p | FiresAt(l, b, h, p, DuplicateStreak) :: !InsertSeen(b, h, p)) <==>
              l.duplicateStreak >= 0 || l.hardTimeout < WARM_UP
  {
    if l.duplicateStreak >= 0 || l.hardTimeout < WARM_UP {
      forall b, h, p | FiresAt(l, b, h, p, DuplicateStreak) ensures !InsertSeen(b, h, p) {
        if l.duplicateStreak >= 0 {
          StreakNeedsNoInsert(l, b, h, p);
        }
      }
    } else {
      var b := Birth(0.0, 0.0, 0.0, 0.0, 0.0, 0.0);
      var p := At(WARM_UP, Snapshot(1, 1, 1, "", 1.0, false, false));
      assert Judge(l, b, Newborn(b), p) == Some(DuplicateStreak);
      assert FiresAt(l, b, [], p, DuplicateStreak) && InsertSeen(b, [], p);
    }
  }

  // ----- the state shown while running -----

  /** No poll that is survived leaves the state Saturated. */
  lemma NeverSaturated(l: Limits, b: Birth, h: seq<Poll>, p: Poll)
    requires Judge(l, b, Recall(b, h), p).None?
    ensures Progress(Recall(b, h + [p]), p) in {Running, RunningNoProgress, Stalled}
  {
  }

  // ----- which triggers the defaults can reach -----

  /** A run of at most one quiet poll followed by the one that fires. */
  lemma Witness(t: Trigger) returns (b: Birth, h: seq<Poll>, p: Poll)
    requires t != TelemetryFrozen
    ensures FiresAt(DEFAULTS, b, h, p, t)
  {
    b := Birth(0.0, 0.0, 0.0, 0.0, 0.0, 0.0);
    h := [];
    var first := Poll(30.0, 30.0, 30.0, Snapshot(1, 0, 0, "a", 1.0, false, false));
    assert [first][..0] == [] && [first][0] == first;
    match t {
      case HardTimeout => p := At(3601.0, Snapshot(0, 0, 0, "", 1.0, false, false));
      case ScrapySaturation => p := At(1.0, Snapshot(0, 0, 0, "", 1.0, true, false));
      case NoInserts => p := At(181.0, Snapshot(6, 0, 0, "", 1.0, false, false));
      case DuplicateStreak => p := At(30.0, Snapshot(31, 0, 1, "", 1.0, false, false));
      case ZeroThroughput => p := At(121.0, Snapshot(6, 1, 0, "", 0.0, false, false));
      case ReactorHanging => h, p := [first], At(151.0, first.snap);
      case StaticAirline => h, p := [first], At(331.0, first.snap.(pages := 2));
    }
    assert (h + [p])[|h|] == p;
    assert Quiet(DEFAULTS, b, []);
    assert Judge(DEFAULTS, b, Recall(b, []), first).None?;
    assert Quiet(DEFAULTS, b, [first]);
  }

  function At(now: real, s: Snapshot): Poll {
    Poll(now, now, now, s)
  }

  /** The default limits, told by the time at which a crawl is stopped that shows one
      thing alone. */
  lemma DefaultsInSeconds(gap: real, pages: int)
    requires 0.0 <= gap
    ensures var first := At(30.0, Snapshot(1, 0, 0, "a", 1.0, false, false));
            var young, known := Newborn(EPOCH), Recall(EPOCH, [first]);
            var s := Snapshot(6, 0, 0, "", 1.0, false, false);
            && (StoppedFor(young, At(gap, s.(pages := 0)), HardTimeout) <==> gap > 3600.0)
            && (StoppedFor(young, At(gap, s), NoInserts) <==> 180.0 < gap <= 3600.0)
            && (StoppedFor(known, At(30.0 + gap, first.snap), ReactorHanging) <==> 120.0 < gap <= 3570.0)
            && (StoppedFor(young, At(30.0, s.(pages := pages, dupes := 1)), DuplicateStreak) <==> pages > 30)
            && (StoppedFor(known, At(30.0 + gap, s.(inserts := 1, airline := "a")), StaticAirline)
                <==> 300.0 < gap <= 3570.0)
            && (StoppedFor(young, At(gap, s.(inserts := 1, throughput := 0.0)), ZeroThroughput)
                <==> 120.0 < gap <= 3600.0)
    ensures DEFAULTS.telemetryStatic == 120.0 && DEFAULTS.heartbeat == 10.0 && DEFAULTS.graceful == 15.0
  {
    var first := At(30.0, Snapshot(1, 0, 0, "a", 1.0, false, false));
    assert [first][..0] == [] && [first][0] == first;
    assert Recall(EPOCH, []) == Newborn(EPOCH);
    assert Recall(EPOCH, [first])
        == Memory(0, 0.0, 1, 30.0, "a", 30.0, Some(ContentOf(first.snap)), 30.0, 30.0);
    hide Recall;
  }

  const EPOCH := Birth(0.0, 0.0, 0.0, 0.0, 0.0, 0.0)

  predicate StoppedFor(m: Memory, p: Poll, t: Trigger) {
    Judge(DEFAULTS, EPOCH, m, p) == Some(t)
  }

  /** With the default limits exactly one of the eight triggers is dead code. */
  lemma ReachableByDefault(t: Trigger)
    ensures Fires(DEFAULTS, t) <==> t != TelemetryFrozen
  {
    FrozenFiresExactlyWhen(DEFAULTS);
    if t != TelemetryFrozen {
      var b, h, p := Witness(t);
    }
  }

  // ----- the loop -----

  /** The number of polls of `feed` that pass before one fires. */
  function Lifetime(l: Limits, b: Birth, feed: seq<Poll>, k: nat): nat
    requires k <= |feed|
    decreases |feed| - k
  {
    if k < |feed| && Judge(l, b, Recall(b, feed[..k]), feed[k]).None?
    then Lifetime(l, b, feed, k + 1) else k
  }

  /** The run stops at the first poll that fires: all before it are quiet, and it
      is either one that fires or the end of the child's life. */
  lemma {:induction false} LifetimeIsFirstFire(l: Limits, b: Birth, feed: seq<Poll>, k: nat)
    requires k <= |feed| && Quiet(l, b, feed[..k])
    ensures k <= Lifetime(l, b, feed, k) <= |feed|
    ensures var n := Lifetime(l, b, feed, k);
            Quiet(l, b, feed[..n]) && (n < |feed| ==> Judge(l, b, Recall(b, feed[..n]), feed[n]).Some?)
    decreases |feed| - k
  {
    if k < |feed| && Judge(l, b, Recall(b, feed[..k]), feed[k]).None? {
      assert feed[..k + 1][..k] == feed[..k];
      LifetimeIsFirstFire(l, b, feed, k + 1);
    }
  }

  /** One more turn of the loop. */
  lemma OneTurn(l: Limits, b: Birth, feed: seq<Poll>, k: nat)
    requires k < |feed|
    ensures var verdict := Judge(l, b, Recall(b, feed[..k]), feed[k]);
            && (verdict.None? ==>
                  && Recall(b, feed[..k + 1]) == Kept(b, Recall(b, feed[..k]), feed[k], None)
                  && Lifetime(l, b, feed, k) == Lifetime(l, b, feed, k + 1)
                  && Progress(Recall(b, feed[..k + 1]), feed[k]) in {Running, RunningNoProgress, Stalled})
            && (verdict.Some? ==> Lifetime(l, b, feed, k) == k)
  {
    assert feed[..k + 1][..k] == feed[..k];
    if Judge(l, b, Recall(b, feed[..k]), feed[k]).None? {
      NeverSaturated(l, b, feed[..k], feed[k]);
      assert feed[..k] + [feed[k]] == feed[..k + 1];
    }
  }

  /** How many polls the loop makes. */
  function Polls(l: Limits, b: Birth, feed: seq<Poll>): nat {
    var n := Lifetime(l, b, feed, 0);
    if n < |feed| then n + 1 else n
  }

  lemma OrderlyPrefix(b: Birth, feed: seq<Poll>, n: nat)
    requires Orderly(b, feed) && n <= |feed|
    ensures Orderly(b, feed[..n])
  {
  }

  /** The loop makes at most hardTimeout/heartbeat + 2 polls, or one if the timeout is
      negative. */
  lemma PollsAreBounded(l: Limits, b: Birth, feed: seq<Poll>)
    requires Orderly(b, feed) && Paced(l, feed) && l.heartbeat > 0.0
    ensures Polls(l, b, feed) <= if l.hardTimeout < 0.0 then 1 else (l.hardTimeout / l.heartbeat).Floor + 2
  {
    var n := Lifetime(l, b, feed, 0);
    LifetimeIsFirstFire(l, b, feed, 0);
    OrderlyPrefix(b, feed, n);
    assert Paced(l, feed[..n]);
    RunIsBounded(l, b, feed[..n]);
    if n == 0 && l.hardTimeout >= 0.0 {
      QuotientNonNegative(l.hardTimeout, l.heartbeat);
    }
  }

  lemma QuotientNonNegative(a: real, b: real)
    requires a >= 0.0 && b > 0.0
    ensures (a / b).Floor >= 0
  {
    var q := a / b;
    assert q * b == a;
    assert q < 0.0 ==> q * b < 0.0;
  }

  // ----- the kill protocol -----

  /** SIGKILL is given this long. */
  const KILL_WAIT := 5.0
  const COLLECT_WAIT := 10.0

  type Delay = x: real | x >= 0.0 witness 0.0

  /** When the child would be gone: perhaps already at SIGTERM, else this long after
      SIGTERM and after SIGKILL, None for never; `lag` passes between the end of the
      grace period and SIGKILL. */
  datatype Child = Child(gone: bool, onTerm: Option<Delay>, lag: Delay, onKill: Option<Delay>)

  predicate Outlives(delay: Option<Delay>, wait: real) {
    delay.None? || delay.value > wait
  }

  function Waiting(wait: real): Delay {
    if wait > 0.0 then wait else 0.0
  }

  datatype Signal = SigTerm | SigKill

  datatype Sent = Sent(signal: Signal, at: real)

  /** SIGKILL is due: the child outlived the grace period. */
  predicate Stubborn(l: Limits, c: Child) {
    !c.gone && Outlives(c.onTerm, l.graceful)
  }

  function KillTime(l: Limits, c: Child, at: real): real {
    at + Waiting(l.graceful) + c.lag
  }

  /** The child is still there when SIGKILL comes and outlives the second wait too. */
  predicate Undead(l: Limits, c: Child) {
    Stubborn(l, c) && Outlives(c.onTerm, Waiting(l.graceful) + c.lag) && Outlives(c.onKill, KILL_WAIT)
  }

  lemma UndeadIsStubborn(l: Limits, c: Child)
    ensures Undead(l, c) ==> Stubborn(l, c)
  {
  }

  /** The longest time from SIGTERM to the end of the protocol. */
  function ProtocolTime(l: Limits, c: Child): real {
    Waiting(l.graceful) + c.lag + KILL_WAIT
  }

  /** Each poll is judged within `turn` of when the one before was asked. */
  predicate Prompt(b: Birth, feed: seq<Poll>, turn: real) {
    forall k | 0 <= k < |feed| :: InTurn(b, feed, turn, k)
  }

  predicate InTurn(b: Birth, feed: seq<Poll>, turn: real, k: nat)
    requires k < |feed|
  {
    feed[k].judged <= (if k == 0 then b.started else feed[k - 1].asked) + turn
  }

  /** A run that is stopped is stopped within the hard timeout and one turn. */
  lemma StoppedInTime(l: Limits, b: Birth, feed: seq<Poll>, turn: real)
    requires Orderly(b, feed) && Prompt(b, feed, turn)
    ensures var n := Lifetime(l, b, feed, 0);
            n < |feed| ==> feed[n].judged - b.started <= Waiting(l.hardTimeout) + turn
  {
    var n := Lifetime(l, b, feed, 0);
    LifetimeIsFirstFire(l, b, feed, 0);
    assert n < |feed| ==> InTurn(b, feed, turn, n);
    if 0 < n < |feed| {
      var h := feed[..n];
      assert h[n - 1] == feed[n - 1] && Judge(l, b, Recall(b, h[..n - 1]), h[n - 1]).None?;
      assert feed[n - 1].asked - b.started <= l.hardTimeout;
    }
  }

  datatype KillType = Graceful | HardKill | ZombieKill

  datatype Termination = Termination(
    trigger: Trigger, state: CrawlState, elapsed: real, telemetry: Snapshot, killType: KillType)

  datatype Outcome = Outcome(
    returncode: Option<int>, state: CrawlState, elapsed: real, polls: nat, termination: Option<Termination>)

  class SubprocessGovernor {
    const limits: Limits
    const birth: Birth
    const child: Child

    var state: CrawlState
    var terminationEvent: Option<Termination>
    var lastInsertTime: real
    var lastInsertCount: int
    var lastPageTime: real
    var lastPageCount: int
    var lastAirline: string
    var lastAirlineTime: real
    var lastContent: Option<Content>
    var lastContentTime: real
    var lastThroughputTime: real
    var pollCount: nat
    var signals: seq<Sent>
    var endedAt: Option<real>

    function Remembered(): Memory
      reads this
    {
      Memory(lastInsertCount, lastInsertTime, lastPageCount, lastPageTime, lastAirline,
             lastAirlineTime, lastContent, lastContentTime, lastThroughputTime)
    }

    constructor (limits: Limits, birth: Birth, child: Child)
      ensures this.limits == limits && this.birth == birth && this.child == child
      ensures Remembered() == Newborn(birth)
      ensures state == Running && terminationEvent == None && pollCount == 0 && signals == [] && endedAt == None
    {
      this.limits, this.birth, this.child := limits, birth, child;
      state, terminationEvent, pollCount, signals, endedAt := Running, None, 0, [], None;
      lastInsertTime, lastInsertCount := birth.insert, 0;
      lastPageTime, lastPageCount := birth.page, 0;
      lastAirline, lastAirlineTime := "", birth.airline;
      lastContent, lastContentTime := None, birth.content;
      lastThroughputTime := birth.throughput;
    }

    // the five checks that remember something, each with its update

    method InsertsStale(p: Poll) returns (stale: bool)
      modifies this`lastInsertTime, this`lastInsertCount
      ensures Remembered() == NoteInserts(old(Remembered()), p)
      ensures stale == old(NoInsertFor(limits, Remembered(), p))
    {
      if p.snap.inserts > lastInsertCount {
        lastInsertCount, lastInsertTime := p.snap.inserts, p.judged;
        return false;
      }
      return p.judged - lastInsertTime > limits.noInsert && p.snap.pages > 5;
    }

    method PagesStale(p: Poll) returns (stale: bool)
      modifies this`lastPageTime, this`lastPageCount
      ensures Remembered() == NotePages(old(Remembered()), p)
      ensures stale == old(PagesHung(limits, Remembered(), p))
    {
      if p.snap.pages > lastPageCount {
        lastPageCount, lastPageTime := p.snap.pages, p.judged;
        return false;
      }
      return p.judged - lastPageTime > limits.staticPage && p.snap.pages > 0;
    }

    method AirlineStale(p: Poll) returns (stale: bool)
      modifies this`lastAirline, this`lastAirlineTime
      ensures Remembered() == NoteAirline(old(Remembered()), p)
      ensures stale == old(AirlineStatic(limits, Remembered(), p))
    {
      if p.snap.airline != "" && p.snap.airline != lastAirline {
        lastAirline, lastAirlineTime := p.snap.airline, p.judged;
        return false;
      }
      return p.snap.airline != "" && p.judged - lastAirlineTime > limits.staticAirline;
    }

    method ContentStale(p: Poll) returns (stale: bool)
      modifies this`lastContent, this`lastContentTime
      ensures Remembered() == NoteContent(old(Remembered()), p)
      ensures stale == old(ContentFrozen(limits, Remembered(), p))
    {
      if Some(ContentOf(p.snap)) != lastContent {
        lastContent, lastContentTime := Some(ContentOf(p.snap)), p.judged;
        return false;
      }
      return p.judged - lastContentTime > limits.telemetryStatic && p.snap.pages > 0;
    }

    method ThroughputStale(p: Poll) returns (stale: bool)
      modifies this`lastThroughputTime
      ensures Remembered() == NoteThroughput(old(Remembered()), p)
      ensures stale == old(NoThroughputFor(limits, Remembered(), p))
    {
      if p.snap.throughput > 0.0 {
        lastThroughputTime := p.judged;
        return false;
      }
      return p.judged - lastThroughputTime > limits.zeroThroughput && p.snap.pages > 5;
    }

    method EvaluateTriggers(p: Poll) returns (verdict: Option<Trigger>)
      modifies this`lastInsertTime, this`lastInsertCount, this`lastPageTime, this`lastPageCount,
               this`lastAirline, this`lastAirlineTime, this`lastContent, this`lastContentTime,
               this`lastThroughputTime
      ensures verdict == Judge(limits, birth, old(Remembered()), p)
      ensures Remembered() == Kept(birth, old(Remembered()), p, verdict)
    {
      var elapsed := p.asked - birth.started;
      if elapsed > limits.hardTimeout { return Some(HardTimeout); }
      if p.snap.saturated { return Some(ScrapySaturation); }
      if elapsed < WARM_UP { return None; }
      var stale := InsertsStale(p);
      if stale { return Some(NoInserts); }
      stale := PagesStale(p);
      if stale { return Some(ReactorHanging); }
      if p.snap.pages > 0 && p.snap.inserts == lastInsertCount && p.snap.dupes > 0 {
        var pagesSinceInsert := if lastInsertCount > 0 then p.snap.pages - lastPageCount else p.snap.pages;
        if pagesSinceInsert > limits.duplicateStreak { return Some(DuplicateStreak); }
      }
      stale := AirlineStale(p);
      if stale { return Some(StaticAirline); }
      stale := ContentStale(p);
      if stale { return Some(TelemetryFrozen); }
      stale := ThroughputStale(p);
      if stale { return Some(ZeroThroughput); }
      return None;
    }

    method UpdateState(p: Poll)
      modifies this`state
      ensures state == Progress(Remembered(), p)
    {
      if p.snap.saturated {
        state := Saturated;
      } else if p.settled - lastInsertTime > 60.0 && p.snap.pages > 5 {
        state := RunningNoProgress;
      } else if p.snap.stalled {
        state := Stalled;
      } else {
        state := Running;
      }
    }

    /** proc.wait(timeout): whether it expires, and when it is over. */
    method Wait(from: real, timeout: real, delay: Option<Delay>) returns (expired: bool, until: real)
      ensures expired <==> Outlives(delay, timeout)
      ensures from <= until <= from + Waiting(timeout)
      ensures until == from + if expired then Waiting(timeout) else delay.value
    {
      if delay.Some? && delay.value <= timeout {
        return false, from + delay.value;
      }
      return true, from + Waiting(timeout);
    }

    /** SIGTERM comes first; SIGKILL exactly when the child outlives the grace period,
        and not before its end; the zombie state, with one more SIGKILL, exactly when it
        outlives that for five seconds too. */
    method Terminate(trigger: Trigger, p: Poll)
      modifies this`state, this`terminationEvent, this`signals, this`endedAt
      ensures terminationEvent.Some?
      ensures var e := terminationEvent.value;
              && e.trigger == trigger && e.state == state && e.telemetry == p.snap
              && e.elapsed == p.asked - birth.started
              && e.killType == (if Undead(limits, child) then ZombieKill
                                else if Stubborn(limits, child) then HardKill else Graceful)
      ensures state == if Undead(limits, child) then Zombie else Terminated
      ensures |signals| == |old(signals)| + (if Undead(limits, child) then 3
                                             else if Stubborn(limits, child) then 2 else 1)
      ensures old(signals) + [Sent(SigTerm, p.judged)] <= signals
      ensures forall i | |old(signals)| < i < |signals| ::
                signals[i].signal == SigKill && signals[i].at >= KillTime(limits, child, p.judged)
      ensures endedAt.Some? && p.judged <= endedAt.value <= p.judged + ProtocolTime(limits, child)
      // in seconds: the kind of end, the signals with their times, and the end
      ensures var kind := terminationEvent.value.killType;
              var grace := if limits.graceful > 0.0 then limits.graceful else 0.0;
              var killed := p.judged + grace + child.lag;
              && (kind == Graceful <==>
                  child.gone || (child.onTerm.Some? && child.onTerm.value <= limits.graceful))
              && (kind == ZombieKill <==>
                  && kind != Graceful
                  && (child.onTerm.None? || child.onTerm.value > grace + child.lag)
                  && (child.onKill.None? || child.onKill.value > 5.0))
              && signals[|old(signals)|..] == [Sent(SigTerm, p.judged)]
                 + (if kind == Graceful then [] else [Sent(SigKill, killed)])
                 + (if kind == ZombieKill then [Sent(SigKill, killed + 5.0)] else [])
              && (kind != Graceful ==> killed <= endedAt.value <= killed + 5.0)
              && (kind == Graceful ==> endedAt.value <= p.judged + grace)
    {
      state := Terminating;
      var killType := Graceful;
      var now := p.judged;
      signals := signals + [Sent(SigTerm, now)];
      if !child.gone {
        var expired;
        expired, now := Wait(now, limits.graceful, child.onTerm);
        if expired {
          killType := HardKill;
          now := now + child.lag;
          signals := signals + [Sent(SigKill, now)];
          var left := !Outlives(child.onTerm, now - p.judged);
          expired, now := Wait(now, KILL_WAIT, if left then Some(0.0) else child.onKill);
          if expired {
            killType := ZombieKill;
            state := Zombie;
            signals := signals + [Sent(SigKill, now)];
          }
        }
      }
      if state != Zombie {
        state := Terminated;
      }
      endedAt := Some(now);
      terminationEvent := Some(Termination(trigger, state, p.asked - birth.started, p.snap, killType));
    }

    /** From `start` on, when the child is gone or given up, its output is waited for;
        `drain` is how long that would take. */
    method CollectResult(returncode: Option<int>, start: real, drain: Option<Delay>) returns (r: Outcome)
      ensures r.returncode == returncode && r.polls == pollCount && r.termination == terminationEvent
      ensures r.elapsed == start - birth.started
                           + if Outlives(drain, COLLECT_WAIT) then COLLECT_WAIT else drain.value
      ensures terminationEvent.Some? ==> r.state == terminationEvent.value.state
      ensures terminationEvent.None? ==> r.state == if returncode == Some(0) then Completed else CompletedDegraded
    {
      var final;
      var expired, now := Wait(start, COLLECT_WAIT, drain);
      if terminationEvent.Some? {
        final := terminationEvent.value.state;
      } else if returncode == Some(0) {
        final := Completed;
      } else {
        final := CompletedDegraded;
      }
      return Outcome(returncode, final, now - birth.started, pollCount, terminationEvent);
    }

    /** The loop; `feed` is what it would read for as long as the child lives.  The result
        is the poll that fired, if any. */
    method PollLoop(feed: seq<Poll>) returns (fired: Option<Trigger>)
      requires Remembered() == Newborn(birth) && state == Running && pollCount == 0
      modifies this`state, this`pollCount, this`lastInsertTime, this`lastInsertCount, this`lastPageTime,
               this`lastPageCount, this`lastAirline, this`lastAirlineTime, this`lastContent,
               this`lastContentTime, this`lastThroughputTime
      ensures pollCount == Polls(limits, birth, feed) && state in {Running, RunningNoProgress, Stalled}
      ensures var n := Lifetime(limits, birth, feed, 0);
              if n == |feed| then fired.None? && Remembered() == Recall(birth, feed)
              else n < |feed| && fired.Some? && fired == Judge(limits, birth, Recall(birth, feed[..n]), feed[n])
    {
      LifetimeIsFirstFire(limits, birth, feed, 0);
      assert Recall(birth, feed[..0]) == Newborn(birth);
      assert Lifetime(limits, birth, feed, |feed|) == |feed|;
      hide Judge, Recall, Kept, Lifetime, Newborn, Progress;
      while pollCount < |feed|
        invariant pollCount <= |feed|
        invariant Remembered() == Recall(birth, feed[..pollCount])
        invariant Lifetime(limits, birth, feed, 0) == Lifetime(limits, birth, feed, pollCount)
        invariant state in {Running, RunningNoProgress, Stalled}
        decreases |feed| - pollCount
      {
        var p := feed[pollCount];
        OneTurn(limits, birth, feed, pollCount);
        pollCount := pollCount + 1;
        fired := EvaluateTriggers(p);
        if fired.Some? {
          return;
        }
        UpdateState(p);
      }
      assert feed[..|feed|] == feed;
      return None;
    }

    /** `noticed` is when the loop sees that the child has ended by itself, if it does. */
    method Run(feed: seq<Poll>, returncode: Option<int>, noticed: real, drain: Option<Delay>) returns (r: Outcome)
      requires Remembered() == Newborn(birth) && state == Running
      requires terminationEvent == None && pollCount == 0 && signals == [] && endedAt == None
      modifies this
      ensures r.polls == Polls(limits, birth, feed)
      ensures var n := Lifetime(limits, birth, feed, 0); r.polls == if n < |feed| then n + 1 else |feed|
      ensures var n := Lifetime(limits, birth, feed, 0);
              if n == |feed|
              then r.termination.None? && signals == [] && endedAt == None
                   && r.elapsed <= noticed - birth.started + COLLECT_WAIT
                   && Remembered() == Recall(birth, feed)
                   && state in {Running, RunningNoProgress, Stalled}
                   && r.state == (if returncode == Some(0) then Completed else CompletedDegraded)
              else n < |feed| && r.termination.Some? && endedAt.Some?
                   && Some(r.termination.value.trigger) == Judge(limits, birth, Recall(birth, feed[..n]), feed[n])
                   && r.termination.value.telemetry == feed[n].snap
                   && r.state == r.termination.value.state == state
                   && state == (if Undead(limits, child) then Zombie else Terminated)
                   && [Sent(SigTerm, feed[n].judged)] <= signals
                   && (|signals| > 1 <==> Stubborn(limits, child))
      // in time: however long the child would live, it is gone or given up after the
      // hard timeout, one turn and the kill protocol, and the result is there ten
      // seconds later
      ensures forall turn: real | Orderly(birth, feed) && Prompt(birth, feed, turn) && r.termination.Some? ::
                r.elapsed <= Waiting(limits.hardTimeout) + turn + ProtocolTime(limits, child) + COLLECT_WAIT
    {
      hide Undead, Stubborn, ProtocolTime, Judge, Recall, Orderly, Prompt;
      var fired := PollLoop(feed);
      if fired.Some? {
        Terminate(fired.value, feed[pollCount - 1]);
        UndeadIsStubborn(limits, child);
      }
      r := CollectResult(returncode, if fired.Some? then endedAt.value else noticed, drain);
      forall turn: real | Orderly(birth, feed) && Prompt(birth, feed, turn) && r.termination.Some?
        ensures r.elapsed <= Waiting(limits.hardTimeout) + turn + ProtocolTime(limits, child) + COLLECT_WAIT
      {
        StoppedInTime(limits, birth, feed, turn);
      }
    }
  }
}
