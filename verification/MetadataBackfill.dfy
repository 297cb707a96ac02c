/** The batch loop that extracts metadata for reviews without any
    (analytics/metadata_extractor.py).

    `corpus` lists the reviews oldest first; the store holds one row per review
    analysed so far.  What the extraction finds in a text is not modelled.
 */
module MetadataBackfill {
  import opened Common

  type ReviewId = nat

  predicate Distinct(s: seq<ReviewId>) {
    forall i, j | 0 <= i < j < |s| :: s[i] != s[j]
  }

  /** Rows whose review is gone; no foreign key rules them out. */
  function Orphans(corpus: seq<ReviewId>, rows: seq<ReviewId>): nat {
    if rows == [] then 0
    else Orphans(corpus, rows[..|rows| - 1]) + if rows[|rows| - 1] in corpus then 0 else 1
  }

  /** The reviews without a row, oldest first. */
  function Pending(corpus: seq<ReviewId>, rows: seq<ReviewId>): seq<ReviewId> {
    if corpus == [] then []
    else
      var pre, r := Pending(corpus[..|corpus| - 1], rows), corpus[|corpus| - 1];
      if r in rows then pre else pre + [r]
  }

  function Min(a: int, b: int): int {
    if a <= b then a else b
  }

  /** limit(size) of the pending reviews. */
  function Batch(corpus: seq<ReviewId>, rows: seq<ReviewId>, size: nat): seq<ReviewId> {
    Pending(corpus, rows)[..Min(|Pending(corpus, rows)|, size)]
  }

  lemma {:induction false} PendingMembers(corpus: seq<ReviewId>, rows: seq<ReviewId>)
    requires Distinct(corpus)
    ensures Distinct(Pending(corpus, rows))
    ensures forall r :: r in Pending(corpus, rows) <==> r in corpus && r !in rows
  {
    if corpus != [] {
      var pre, last := corpus[..|corpus| - 1], corpus[|corpus| - 1];
      PendingMembers(pre, rows);
      assert forall r :: r in corpus <==> r in pre || r == last by {
        assert corpus == pre + [last];
      }
    }
  }

  /** Covering any first part of the pending reviews leaves the rest, in order. */
  lemma {:induction false} PendingAfter(corpus: seq<ReviewId>, rows: seq<ReviewId>, k: nat)
    requires Distinct(corpus) && k <= |Pending(corpus, rows)|
    ensures Pending(corpus, rows + Pending(corpus, rows)[..k]) == Pending(corpus, rows)[k..]
  {
    if corpus != [] {
      var pre, last := corpus[..|corpus| - 1], corpus[|corpus| - 1];
      var p, all := Pending(pre, rows), Pending(corpus, rows);
      PendingMembers(pre, rows);
      if last in rows {
        PendingAfter(pre, rows, k);
      } else if k <= |p| {
        PendingAfter(pre, rows, k);
        assert all[..k] == p[..k];
        assert last !in p[..k];
      } else {
        PendingAfter(pre, rows, |p|);
        assert all[..k] == p + [last] && p[..|p|] == p;
        PendingIgnores(pre, rows + p, last);
        assert rows + p + [last] == rows + all[..k];
      }
    }
  }

  lemma {:induction false} PendingIgnores(corpus: seq<ReviewId>, rows: seq<ReviewId>, x: ReviewId)
    requires x !in corpus
    ensures Pending(corpus, rows + [x]) == Pending(corpus, rows)
  {
    if corpus != [] {
      PendingIgnores(corpus[..|corpus| - 1], rows, x);
    }
  }

  lemma {:induction false} PendingOfNone(corpus: seq<ReviewId>)
    ensures Pending(corpus, []) == corpus
  {
    if corpus != [] {
      PendingOfNone(corpus[..|corpus| - 1]);
    }
  }

  lemma {:induction false} PendingAfterOne(corpus: seq<ReviewId>, rows: seq<ReviewId>, x: ReviewId)
    requires Distinct(corpus) && x in corpus && x !in rows
    ensures |Pending(corpus, rows + [x])| == |Pending(corpus, rows)| - 1
  {
    var pre, last := corpus[..|corpus| - 1], corpus[|corpus| - 1];
    if x == last {
      PendingIgnores(pre, rows, x);
    } else {
      PendingAfterOne(pre, rows, x);
    }
  }

  lemma OrphansExtend(corpus: seq<ReviewId>, rows: seq<ReviewId>, x: ReviewId)
    ensures Orphans(corpus, rows + [x]) == Orphans(corpus, rows) + if x in corpus then 0 else 1
  {
    assert (rows + [x])[..|rows|] == rows;
  }

  /** The pending reviews number what the two table counts differ by, orphans aside. */
  lemma {:induction false} PendingCount(corpus: seq<ReviewId>, rows: seq<ReviewId>)
    requires Distinct(corpus) && Distinct(rows)
    ensures |Pending(corpus, rows)| == |corpus| - |rows| + Orphans(corpus, rows)
    decreases |rows|
  {
    if rows == [] {
      PendingOfNone(corpus);
    } else {
      var pre, x := rows[..|rows| - 1], rows[|rows| - 1];
      PendingCount(corpus, pre);
      assert pre + [x] == rows;
      if x in corpus { PendingAfterOne(corpus, pre, x); } else { PendingIgnores(corpus, pre, x); }
    }
  }

  lemma PendingIsNew(corpus: seq<ReviewId>, rows: seq<ReviewId>, k: nat)
    requires Distinct(corpus) && k < |Pending(corpus, rows)|
    ensures var p := Pending(corpus, rows); p[k] in corpus && p[k] !in rows && p[k] !in p[..k]
  {
    PendingMembers(corpus, rows);
    assert Pending(corpus, rows)[k] in Pending(corpus, rows);
  }

  lemma AddingOne(corpus: seq<ReviewId>, rows: seq<ReviewId>, x: ReviewId)
    requires Distinct(rows) && x in corpus && x !in rows
    ensures Distinct(rows + [x]) && Orphans(corpus, rows + [x]) == Orphans(corpus, rows)
  {
    OrphansExtend(corpus, rows, x);
  }

  /** A first part of the pending reviews adds distinct rows and no orphans. */
  lemma {:induction false} AddingPending(corpus: seq<ReviewId>, rows: seq<ReviewId>, k: nat)
    requires Distinct(corpus) && Distinct(rows) && k <= |Pending(corpus, rows)|
    ensures var later := rows + Pending(corpus, rows)[..k];
            Distinct(later) && Orphans(corpus, later) == Orphans(corpus, rows)
  {
    hide *;
    var p := Pending(corpus, rows);
    if k == 0 {
      assert rows + p[..0] == rows;
    } else {
      AddingPending(corpus, rows, k - 1);
      PendingIsNew(corpus, rows, k - 1);
      assert rows + p[..k] == rows + p[..k - 1] + [p[k - 1]];
      AddingOne(corpus, rows + p[..k - 1], p[k - 1]);
    }
  }

  // ----- what a whole run does -----

  /** The rows added by at most `batches` batches: a batch that adds nothing, or after
      which the counts no longer differ, is the last. */
  function Created(pending: nat, orphans: nat, size: nat, batches: nat): (c: nat)
    ensures c <= pending
    decreases batches
  {
    if batches == 0 then 0
    else
      var c := Min(pending, size);
      if c == 0 || pending - c <= orphans then c
      else c + Created(pending - c, orphans, size, batches - 1)
  }

  function AtLeastZero(x: int): nat {
    if x >= 0 then x else 0
  }

  /** The `remaining` a run reports. */
  function Remaining(pending: nat, orphans: nat, size: nat, maxBatches: int): nat {
    if maxBatches <= 0 then 0 else AtLeastZero(pending - Created(pending, orphans, size, maxBatches) - orphans)
  }

  /** The rows that fill a number of batches. */
  function Filling(size: nat, batches: nat): nat {
    size * batches
  }

  lemma FillingNext(size: nat, batches: nat)
    ensures Filling(size, batches + 1) == Filling(size, batches) + size
    ensures Filling(size, 0) == 0 && Filling(0, batches) == 0
  {
  }

  /** Without orphans the run covers all it is allowed to. */
  lemma {:induction false} CoversAsAllowed(pending: nat, size: nat, batches: nat)
    ensures Created(pending, 0, size, batches) == Min(pending, Filling(size, batches))
    decreases batches
  {
    hide Filling;
    FillingNext(size, 0);
    if batches > 0 {
      FillingNext(size, batches - 1);
      if size == 0 {
        FillingNext(0, batches);
      } else if size < pending {
        CoversAsAllowed(pending - size, size, batches - 1);
      }
    }
  }

  /** `remaining` is 0 exactly when nothing is pending any more. */
  predicate Honest(pending: nat, orphans: nat, size: nat, maxBatches: int) {
    var covered := Created(pending, orphans, size, AtLeastZero(maxBatches)) == pending;
    Remaining(pending, orphans, size, maxBatches) == 0 <==> covered
  }

  /** The report can be trusted for every backlog exactly when at least one batch is
      allowed and the table has no orphans. */
  lemma HonestExactlyWhen(orphans: nat, size: nat, maxBatches: int)
    ensures (forall pending: nat :: Honest(pending, orphans, size, maxBatches)) <==> maxBatches >= 1 && orphans == 0
  {
    if maxBatches < 1 {
      assert !Honest(1, orphans, size, maxBatches);
    } else if orphans > 0 {
      var c := Min(size + 1, size);
      assert Created(size + 1, orphans, size, maxBatches) == size;
      assert !Honest(size + 1, orphans, size, maxBatches);
    }
  }

  /** One more batch after the first `c` pending reviews have got their rows. */
  lemma NextBatch(corpus: seq<ReviewId>, rows: seq<ReviewId>, p: seq<ReviewId>, c: nat, now: seq<ReviewId>, size: nat)
    requires Distinct(corpus) && p == Pending(corpus, rows) && c <= |p| && now == rows + p[..c]
    ensures |Pending(corpus, now)| == |p| - c
    ensures now + Batch(corpus, now, size) == rows + p[..c + Min(|p| - c, size)]
  {
    var k := Min(|p| - c, size);
    PendingAfter(corpus, rows, c);
    assert Batch(corpus, now, size) == p[c..][..k];
    hide *;
    TakeTwice(rows, p, c, k);
  }

  lemma TakeTwice(rows: seq<ReviewId>, p: seq<ReviewId>, c: nat, k: nat)
    requires c + k <= |p|
    ensures rows + p[..c] + p[c..][..k] == rows + p[..c + k]
  {
    assert p[c..][..k] == p[c..c + k];
    assert p[..c] + p[c..c + k] == p[..c + k];
  }

  // ----- the store -----

  /** What goes wrong in one batch, if anything. */
  datatype Fault = NoFault | QueryFails | CommitFails

  function FaultAt(faults: seq<Fault>, batch: nat): Fault {
    if batch < |faults| then faults[batch] else NoFault
  }

  datatype Problem = MetadataQueryFailed | CommitError | NoRowsVisible

  /** total is absent when no batch was run. */
  datatype Payload = Payload(analyzed: nat, total: Option<nat>, remaining: int, batchesRun: nat, error: Option<Problem>)

  /** What one batch reports, by the counts before it. */
  function BatchReport(corpus: seq<ReviewId>, rows: seq<ReviewId>, size: nat, fault: Fault): Payload {
    var p, o := |Pending(corpus, rows)|, Orphans(corpus, rows);
    match fault
    case NoFault => Payload(Min(p, size), Some(|rows| + Min(p, size)), AtLeastZero(p - Min(p, size) - o), 0, None)
    case QueryFails => Payload(0, Some(0), -1, 0, Some(MetadataQueryFailed))
    case CommitFails => Payload(0, Some(|rows|), AtLeastZero(p - o), 0, Some(CommitError))
  }

  /** The report by the counts of the two tables: what the batch added, and what is left. */
  predicate ByCounts(corpus: seq<ReviewId>, before: seq<ReviewId>, after: seq<ReviewId>, size: nat, fault: Fault,
                     result: Payload)
  {
    var left, pending := if |corpus| > |after| then |corpus| - |after| else 0, |Pending(corpus, before)|;
    match fault
    case NoFault =>
      && result.analyzed == |after| - |before| == (if pending < size then pending else size)
      && result.total == Some(|after|) && result.remaining == left && result.error == None
    case QueryFails => result == Payload(0, Some(0), -1, 0, Some(MetadataQueryFailed))
    case CommitFails =>
      result.analyzed == 0 && result.total == Some(|after|) && result.remaining == left
      && result.error == Some(CommitError)
  }

  lemma BatchByCounts(corpus: seq<ReviewId>, rows: seq<ReviewId>, size: nat, fault: Fault)
    requires Distinct(corpus) && Distinct(rows)
    ensures ByCounts(corpus, rows, if fault == NoFault then rows + Batch(corpus, rows, size) else rows, size, fault,
                     BatchReport(corpus, rows, size, fault))
  {
    PendingCount(corpus, rows);
    hide Pending, Distinct, Orphans;
  }

  /** A run so far: the table, the last report, the rows added and the batches run. */
  datatype Progress = Progress(rows: seq<ReviewId>, last: Payload, created: nat, batches: nat)

  const NOTHING_RUN := Payload(0, None, 0, 0, None)

  function NextProgress(corpus: seq<ReviewId>, g: Progress, size: nat, fault: Fault): Progress {
    var report := BatchReport(corpus, g.rows, size, fault);
    if fault == NoFault then
      Progress(g.rows + Batch(corpus, g.rows, size), report, g.created + report.analyzed, g.batches + 1)
    else g.(last := report, batches := g.batches + 1)
  }

  predicate Finished(g: Progress) {
    g.last.error.Some? || g.last.analyzed == 0 || g.last.remaining == 0
  }

  /** The rest of the loop. */
  function RunFrom(corpus: seq<ReviewId>, g: Progress, size: nat, maxBatches: int, faults: seq<Fault>): Progress
    decreases maxBatches - g.batches
  {
    if g.batches >= maxBatches then g
    else
      var next := NextProgress(corpus, g, size, FaultAt(faults, g.batches));
      if Finished(next) then next else RunFrom(corpus, next, size, maxBatches, faults)
  }

  function Run(corpus: seq<ReviewId>, rows: seq<ReviewId>, size: nat, maxBatches: int, faults: seq<Fault>): Progress {
    RunFrom(corpus, Progress(rows, NOTHING_RUN, 0, 0), size, maxBatches, faults)
  }

  /** The rows added are a first part of the pending reviews. */
  predicate OldestFirst(corpus: seq<ReviewId>, rows: seq<ReviewId>, g: Progress) {
    var p := Pending(corpus, rows);
    g.created <= |p| && g.rows == rows + p[..g.created]
  }

  lemma FaultKeepsOldestFirst(corpus: seq<ReviewId>, rows: seq<ReviewId>, g: Progress, size: nat, fault: Fault)
    requires OldestFirst(corpus, rows, g) && fault != NoFault
    ensures var next := NextProgress(corpus, g, size, fault);
            OldestFirst(corpus, rows, next) && next.last.error.Some? && next.created == g.created
  {
    hide Pending;
  }

  lemma NextIs(corpus: seq<ReviewId>, g: Progress, size: nat)
    ensures var next := NextProgress(corpus, g, size, NoFault);
            var p, o := |Pending(corpus, g.rows)|, Orphans(corpus, g.rows);
            && next.rows == g.rows + Batch(corpus, g.rows, size) && next.created == g.created + Min(p, size)
            && next.last.error.None? && next.last.analyzed == Min(p, size)
            && next.last.remaining == AtLeastZero(p - Min(p, size) - o) && next.batches == g.batches + 1
  {
    hide Pending, Orphans, Batch;
  }

  lemma BatchKeepsOldestFirst(corpus: seq<ReviewId>, rows: seq<ReviewId>, g: Progress, size: nat)
    requires Distinct(corpus) && Distinct(rows) && OldestFirst(corpus, rows, g)
    ensures var p, o := |Pending(corpus, rows)|, Orphans(corpus, rows);
            var next := NextProgress(corpus, g, size, NoFault);
            && OldestFirst(corpus, rows, next) && next.batches == g.batches + 1
            && next.last.error.None? && next.last.analyzed == Min(p - g.created, size)
            && next.created == g.created + next.last.analyzed
            && next.last.remaining == AtLeastZero(p - next.created - o)
  {
    var p := Pending(corpus, rows);
    hide Pending, Distinct, Orphans, Batch, NextProgress;
    NextIs(corpus, g, size);
    NextBatch(corpus, rows, p, g.created, g.rows, size);
    AddingPending(corpus, rows, g.created);
  }

  lemma NextKeepsOldestFirst(corpus: seq<ReviewId>, rows: seq<ReviewId>, g: Progress, size: nat, fault: Fault)
    requires Distinct(corpus) && Distinct(rows) && OldestFirst(corpus, rows, g)
    ensures var next := NextProgress(corpus, g, size, fault);
            && OldestFirst(corpus, rows, next) && next.batches == g.batches + 1
            && (next.last.error.Some? <==> fault != NoFault)
            && (fault != NoFault ==> next.created == g.created)
            && (!Finished(next) ==> next.created == g.created + size)
  {
    hide Pending, Orphans, Batch, OldestFirst;
    if fault == NoFault {
      BatchKeepsOldestFirst(corpus, rows, g, size);
    } else {
      FaultKeepsOldestFirst(corpus, rows, g, size, fault);
    }
  }

  /** Whatever fails, a run covers the oldest pending reviews, one row each; before a
      failure all batches were full. */
  lemma {:induction false} RunCoversOldestFirst(corpus: seq<ReviewId>, rows: seq<ReviewId>, g: Progress,
                                                size: nat, maxBatches: int, faults: seq<Fault>)
    requires Distinct(corpus) && Distinct(rows) && OldestFirst(corpus, rows, g)
    requires g.last.error.None? && g.created == Filling(size, g.batches)
    ensures var r := RunFrom(corpus, g, size, maxBatches, faults);
            && OldestFirst(corpus, rows, r)
            && (r.last.error.Some? ==>
                  && g.batches < r.batches <= maxBatches && FaultAt(faults, r.batches - 1) != NoFault
                  && r.created == Filling(size, r.batches - 1))
    decreases maxBatches - g.batches
  {
    hide *;
    if g.batches >= maxBatches {
      RunEnds(corpus, g, size, maxBatches, faults);
    } else {
      var fault := FaultAt(faults, g.batches);
      var next := NextProgress(corpus, g, size, fault);
      NextKeepsOldestFirst(corpus, rows, g, size, fault);
      RunUnfolds(corpus, g, size, maxBatches, faults);
      FillingNext(size, g.batches);
      if !Finished(next) {
        RunCoversOldestFirst(corpus, rows, next, size, maxBatches, faults);
      }
    }
  }

  /** And the rows stay unique. */
  lemma CoveredRowsAreDistinct(corpus: seq<ReviewId>, rows: seq<ReviewId>, g: Progress)
    requires Distinct(corpus) && Distinct(rows) && OldestFirst(corpus, rows, g)
    ensures Distinct(g.rows)
  {
    hide Distinct, Pending;
    AddingPending(corpus, rows, g.created);
  }

  /** The step of RunCreates in numbers. */
  lemma StepCreates(corpus: seq<ReviewId>, rows: seq<ReviewId>, g: Progress, size: nat, maxBatches: int,
                    todo: nat, left: nat)
    requires Distinct(corpus) && Distinct(rows) && OldestFirst(corpus, rows, g)
    requires g.created + todo == |Pending(corpus, rows)| && left == maxBatches - g.batches && left > 0
    ensures var next, o := NextProgress(corpus, g, size, NoFault), Orphans(corpus, rows);
            var r, analyzed := RunFrom(corpus, g, size, maxBatches, []), next.last.analyzed;
            && OldestFirst(corpus, rows, next) && next.batches == g.batches + 1
            && analyzed <= todo && next.created == g.created + analyzed
            && (Finished(next) ==> r.created == next.created && Created(todo, o, size, left) == analyzed)
            && (!Finished(next) ==>
                  && r == RunFrom(corpus, next, size, maxBatches, [])
                  && Created(todo, o, size, left) == analyzed + Created(todo - analyzed, o, size, left - 1))
  {
    hide *;
    var next := NextProgress(corpus, g, size, NoFault);
    BatchKeepsOldestFirst(corpus, rows, g, size);
    NoFaults(g.batches);
    RunUnfolds(corpus, g, size, maxBatches, []);
    OneBatchOf(todo, Orphans(corpus, rows), size, left, next.last.analyzed, next.last.remaining);
  }

  /** Without failures the run adds exactly this to the `created` rows so far. */
  lemma {:induction false} RunCreates(corpus: seq<ReviewId>, rows: seq<ReviewId>, g: Progress, size: nat,
                                      maxBatches: int, todo: nat, left: nat)
    requires Distinct(corpus) && Distinct(rows) && OldestFirst(corpus, rows, g)
    requires g.created + todo == |Pending(corpus, rows)|
    requires left == if g.batches < maxBatches then maxBatches - g.batches else 0
    ensures RunFrom(corpus, g, size, maxBatches, []).created
            == g.created + Created(todo, Orphans(corpus, rows), size, left)
    decreases left
  {
    hide *;
    if left == 0 {
      RunEnds(corpus, g, size, maxBatches, []);
      NothingCreated(todo, Orphans(corpus, rows), size);
    } else {
      var next := NextProgress(corpus, g, size, NoFault);
      StepCreates(corpus, rows, g, size, maxBatches, todo, left);
      if !Finished(next) {
        RunCreates(corpus, rows, next, size, maxBatches, todo - next.last.analyzed, left - 1);
      }
    }
  }

  /** Without failures the last batch reports what is left. */
  lemma {:induction false} RunReports(corpus: seq<ReviewId>, rows: seq<ReviewId>, g: Progress, size: nat,
                                      maxBatches: int)
    requires Distinct(corpus) && Distinct(rows) && OldestFirst(corpus, rows, g) && g.batches < maxBatches
    ensures var r := RunFrom(corpus, g, size, maxBatches, []);
            && r.last.error.None? && r.batches > 0
            && r.last.remaining == AtLeastZero(|Pending(corpus, rows)| - r.created - Orphans(corpus, rows))
    decreases maxBatches - g.batches
  {
    hide *;
    var next := NextProgress(corpus, g, size, NoFault);
    BatchKeepsOldestFirst(corpus, rows, g, size);
    NoFaults(g.batches);
    RunUnfolds(corpus, g, size, maxBatches, []);
    if !Finished(next) {
      if next.batches < maxBatches {
        RunReports(corpus, rows, next, size, maxBatches);
      } else {
        RunEnds(corpus, next, size, maxBatches, []);
      }
    }
  }

  lemma RunEnds(corpus: seq<ReviewId>, g: Progress, size: nat, maxBatches: int, faults: seq<Fault>)
    requires g.batches >= maxBatches
    ensures RunFrom(corpus, g, size, maxBatches, faults) == g
  {
  }

  lemma RunUnfolds(corpus: seq<ReviewId>, g: Progress, size: nat, maxBatches: int, faults: seq<Fault>)
    requires g.batches < maxBatches
    ensures var next := NextProgress(corpus, g, size, FaultAt(faults, g.batches));
            && RunFrom(corpus, g, size, maxBatches, faults)
               == (if Finished(next) then next else RunFrom(corpus, next, size, maxBatches, faults))
            && (Finished(next) <==> next.last.error.Some? || next.last.analyzed == 0 || next.last.remaining == 0)
  {
    hide NextProgress;
  }

  lemma NoFaults(batch: nat)
    ensures FaultAt([], batch) == NoFault
  {
  }

  lemma NothingCreated(todo: nat, o: nat, size: nat)
    ensures Created(todo, o, size, 0) == 0
  {
  }

  lemma OneBatchOf(todo: nat, o: nat, size: nat, left: nat, analyzed: nat, remaining: int)
    requires left > 0 && analyzed == Min(todo, size) && remaining == AtLeastZero(todo - analyzed - o)
    ensures analyzed <= todo
    ensures analyzed == 0 || remaining == 0 ==> Created(todo, o, size, left) == analyzed
    ensures !(analyzed == 0 || remaining == 0) ==>
              Created(todo, o, size, left) == analyzed + Created(todo - analyzed, o, size, left - 1)
  {
  }

  /** What a whole run without failures adds and reports, by the counts before it. */
  lemma RunReportsRemaining(corpus: seq<ReviewId>, rows: seq<ReviewId>, size: nat, maxBatches: int)
    requires Distinct(corpus) && Distinct(rows)
    ensures var p, o := |Pending(corpus, rows)|, Orphans(corpus, rows);
            var r := Run(corpus, rows, size, maxBatches, []);
            && r.created == Created(p, o, size, AtLeastZero(maxBatches))
            && r.last.remaining == Remaining(p, o, size, maxBatches)
  {
    var g := Progress(rows, NOTHING_RUN, 0, 0);
    assert OldestFirst(corpus, rows, g);
    RunCreates(corpus, rows, g, size, maxBatches, |Pending(corpus, rows)|, AtLeastZero(maxBatches));
    if maxBatches > 0 {
      RunReports(corpus, rows, g, size, maxBatches);
    } else {
      RunEnds(corpus, g, size, maxBatches, []);
    }
    hide RunFrom, Pending, Orphans, Distinct, Created, OldestFirst;
  }

  lemma RunIsOldestFirst(corpus: seq<ReviewId>, rows: seq<ReviewId>, size: nat, maxBatches: int, faults: seq<Fault>)
    requires Distinct(corpus) && Distinct(rows)
    ensures OldestFirst(corpus, rows, Run(corpus, rows, size, maxBatches, faults))
  {
    var g := Progress(rows, NOTHING_RUN, 0, 0);
    assert OldestFirst(corpus, rows, g);
    FillingNext(size, 0);
    hide RunFrom, Filling, OldestFirst;
    RunCoversOldestFirst(corpus, rows, g, size, maxBatches, faults);
  }

  lemma RunLeaves(corpus: seq<ReviewId>, rows: seq<ReviewId>, size: nat, maxBatches: int)
    requires Distinct(corpus) && Distinct(rows)
    ensures var r := Run(corpus, rows, size, maxBatches, []);
            |Pending(corpus, r.rows)| == |Pending(corpus, rows)| - r.created
  {
    hide Run, Pending;
    RunIsOldestFirst(corpus, rows, size, maxBatches, []);
    PendingAfter(corpus, rows, Run(corpus, rows, size, maxBatches, []).created);
  }

  /** A run without failures and without orphans gives exactly
      min(pending, size * maxBatches) reviews a row, oldest first, and reports it. */
  lemma RunWithoutOrphans(corpus: seq<ReviewId>, rows: seq<ReviewId>, size: nat, maxBatches: nat)
    requires Distinct(corpus) && Distinct(rows) && Orphans(corpus, rows) == 0
    ensures var p := Pending(corpus, rows);
            var r := Run(corpus, rows, size, maxBatches, []);
            && r.created == Min(|p|, Filling(size, maxBatches)) && OldestFirst(corpus, rows, r)
            && (maxBatches > 0 ==> r.last.remaining == |Pending(corpus, r.rows)|)
  {
    hide Run, Pending, Orphans, OldestFirst, Created, Filling;
    RunReportsRemaining(corpus, rows, size, maxBatches);
    CoversAsAllowed(|Pending(corpus, rows)|, size, maxBatches);
    RunIsOldestFirst(corpus, rows, size, maxBatches, []);
    RunLeaves(corpus, rows, size, maxBatches);
  }

  /** A run reports 0 exactly when nothing is pending after it, precisely for the counts
      that are Honest; HonestExactlyWhen says when all are. */
  lemma RunIsHonest(corpus: seq<ReviewId>, rows: seq<ReviewId>, size: nat, maxBatches: int)
    requires Distinct(corpus) && Distinct(rows)
    ensures var r := Run(corpus, rows, size, maxBatches, []);
            (r.last.remaining == 0 <==> Pending(corpus, r.rows) == [])
            <==> Honest(|Pending(corpus, rows)|, Orphans(corpus, rows), size, maxBatches)
  {
    hide Run, Pending, Orphans, Distinct, Created, Remaining;
    RunReportsRemaining(corpus, rows, size, maxBatches);
    RunLeaves(corpus, rows, size, maxBatches);
  }

  class MetadataStore {
    const corpus: seq<ReviewId>
    var rows: seq<ReviewId>

    /** Ids are unique, and so are the reviews that have rows. */
    ghost predicate Valid()
      reads this
    {
      Distinct(corpus) && Distinct(rows)
    }

    constructor (reviews: seq<ReviewId>, stored: seq<ReviewId>)
      requires Distinct(reviews) && Distinct(stored)
      ensures Valid() && corpus == reviews && rows == stored
    {
      corpus, rows := reviews, stored;
    }

    /** run_metadata_extraction. */
    method RunBatch(batchSize: nat, fault: Fault) returns (result: Payload)
      requires Valid()
      modifies this
      ensures Valid()
      ensures rows == if fault == NoFault then old(rows) + Batch(corpus, old(rows), batchSize) else old(rows)
      ensures result == BatchReport(corpus, old(rows), batchSize, fault)
      ensures ByCounts(corpus, old(rows), rows, batchSize, fault, result)
    {
      BatchByCounts(corpus, rows, batchSize, fault);
      hide ByCounts;
      if fault == QueryFails {
        return Payload(0, Some(0), -1, 0, Some(MetadataQueryFailed));
      }
      var reviews := Batch(corpus, rows, batchSize);
      var totalReviews, totalBefore := |corpus|, |rows|;
      var added := rows;
      var created := 0;
      for k := 0 to |reviews|
        invariant added == rows + reviews[..k] && created == k
      {
        added := added + [reviews[k]];
        created := created + 1;
      }
      assert reviews[..|reviews|] == reviews;
      PendingCount(corpus, rows);
      if fault == CommitFails {
        return Payload(0, Some(totalBefore), AtLeastZero(totalReviews - totalBefore), 0, Some(CommitError));
      }
      AddingPending(corpus, rows, |reviews|);
      rows := added;
      PendingCount(corpus, rows);
      var metadataTotal := |rows|;
      var remaining := AtLeastZero(totalReviews - metadataTotal);
      var invisible := created > 0 && metadataTotal <= totalBefore;
      result := Payload(if invisible then 0 else created, Some(metadataTotal), remaining, 0,
                        if invisible then Some(NoRowsVisible) else None);
    }

    /** run_metadata_extraction_until_done; `faults` says what goes wrong in which batch. */
    method RunUntilDone(batchSize: nat, maxBatches: int, faults: seq<Fault>) returns (last: Payload)
      requires Valid()
      modifies this
      ensures Valid()
      ensures var r := Run(corpus, old(rows), batchSize, maxBatches, faults);
              rows == r.rows && last == r.last.(analyzed := r.created, batchesRun := r.batches)
    {
      hide Distinct, BatchReport, Batch, FaultAt;
      var totalCreated, batchesRun := 0, 0;
      last := NOTHING_RUN;
      while batchesRun < maxBatches
        invariant Valid() && last.error.None? && batchesRun >= 0
        invariant Run(corpus, old(rows), batchSize, maxBatches, faults)
                  == RunFrom(corpus, Progress(rows, last, totalCreated, batchesRun), batchSize, maxBatches, faults)
        decreases maxBatches - batchesRun
      {
        var fault := FaultAt(faults, batchesRun);
        batchesRun := batchesRun + 1;
        ReportsFaults(corpus, rows, batchSize, fault);
        last := RunBatch(batchSize, fault);
        if last.error.Some? {
          last := last.(batchesRun := batchesRun, analyzed := totalCreated);
          return;
        }
        var batchCreated := last.analyzed;
        totalCreated := totalCreated + batchCreated;
        if batchCreated == 0 || last.remaining == 0 {
          break;
        }
      }
      last := last.(analyzed := totalCreated, batchesRun := batchesRun);
    }
  }

  lemma ReportsFaults(corpus: seq<ReviewId>, rows: seq<ReviewId>, size: nat, fault: Fault)
    ensures BatchReport(corpus, rows, size, fault).error.Some? <==> fault != NoFault
  {
  }
}
