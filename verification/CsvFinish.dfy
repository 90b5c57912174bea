/** How the tasks of the CSV writer end: what makes the writer fail, why a task leaves, and that shutdown terminates. */
module CsvFinish {
  import opened CsvRecords
  import opened Listing
  import opened Expiry
  import opened CsvProtocol
  import opened CsvSafety
  import opened CsvShutdown
  import opened CsvRuns

  // ----- the writer gives up on a failed flush, and only then

  ghost predicate FlushFails(steps: seq<Step>) {
    exists i :: 0 <= i < |steps| && steps[i] == WriterFlushes(false)
  }

  /** A step leaves the writer failed if it already was, or if it is a flush that fails. */
  lemma FailureEffect(s: State, step: Step)
    requires Enabled(s, step)
    ensures Apply(s, step).writer.WriterFailed? <==> s.writer.WriterFailed? || step == WriterFlushes(false)
    ensures s.writer.WriterFailed? ==> Apply(s, step).handled == s.handled && Apply(s, step).file == s.file
  {
    match step {
      case ClientSends(_) | ClientCloses | BlockArrives(_) | BlockCloses | Cancels =>
      case MatcherReceives(_) | MatcherTakes | MatcherSends | MatcherStops =>
      case ExpirerTicks(_) | ExpirerScans(_) | ExpirerStops =>
      case TrackerReceives(_) | TrackerInserts | TrackerLeavesOnClose | TrackerDumps(_) =>
      case WriterReceives(_) | WriterWrites(_) | WriterFlushes(_) | WriterExits =>
    }
  }

  lemma {:induction false} FailsExactly(s: State, steps: seq<Step>)
    requires IsRun(s, steps)
    ensures After(s, steps).writer.WriterFailed? <==> s.writer.WriterFailed? || FlushFails(steps)
    decreases |steps|
  {
    if steps != [] {
      FailureEffect(s, steps[0]);
      FailsExactly(Apply(s, steps[0]), steps[1..]);
      assert forall i :: 0 <= i < |steps| - 1 ==> steps[1..][i] == steps[i + 1];
    }
  }

  lemma {:induction false} FailureIsFinal(s: State, steps: seq<Step>)
    requires IsRun(s, steps) && s.writer.WriterFailed?
    ensures var s' := After(s, steps);
            s'.writer.WriterFailed? && s'.handled == s.handled && s'.file == s.file
    decreases |steps|
  {
    if steps != [] {
      FailureEffect(s, steps[0]);
      FailureIsFinal(Apply(s, steps[0]), steps[1..]);
    }
  }

  /**
   A run without a failed flush: the writer has not given up, no row was refused, and once the writer has ended
   every row ever sent has been offered to the file, which holds those whose write succeeded.
   */
  lemma GoodFlushes(steps: seq<Step>)
    requires IsRun(Init, steps) && !FlushFails(steps)
    ensures var s := After(Init, steps);
            && !s.writer.WriterFailed? && s.refused == []
            && (!WriterAlive(s) ==> s.writer.WriterDone? && Rows(s.handled) == s.sent && s.file == Written(s.handled))
  {
    FailsExactly(Init, steps);
    ReachableInv(steps);
    var s := After(Init, steps);
    assert Rows(s.handled) + ([] + []) == Rows(s.handled);
  }

  /** After a failed flush the writer is gone for good: nothing more is handled, the file stays as it is. */
  lemma BadFlush(steps: seq<Step>, k: nat)
    requires IsRun(Init, steps) && k < |steps| && steps[k] == WriterFlushes(false)
    ensures IsRun(Init, steps[..k])
    ensures var before, s := After(Init, steps[..k]), After(Init, steps);
            s.writer.WriterFailed? && s.handled == before.handled && s.file == before.file
  {
    RunSplits(Init, steps, k);
    var before := After(Init, steps[..k]);
    FailureEffect(before, steps[k]);
    RunSplits(before, steps[k..], 1);
    assert steps[k..][..1] == [steps[k]] && steps[k..][1..] == steps[k + 1..];
    OneStep(before, steps[k]);
    FailureIsFinal(Apply(before, steps[k]), steps[k + 1..]);
  }

  lemma OneStep(s: State, step: Step)
    requires IsRun(s, [step])
    ensures After(s, [step]) == Apply(s, step)
  {
    assert [step][1..] == [];
  }

  lemma {:induction false} RunSplits(s: State, steps: seq<Step>, k: nat)
    requires IsRun(s, steps) && k <= |steps|
    ensures IsRun(s, steps[..k]) && IsRun(After(s, steps[..k]), steps[k..])
    ensures After(s, steps) == After(After(s, steps[..k]), steps[k..])
    decreases |steps|
  {
    if k == 0 {
      assert steps[..0] == [] && steps[0..] == steps;
    } else {
      RunSplits(Apply(s, steps[0]), steps[1..], k - 1);
      assert steps[..k][0] == steps[0] && steps[..k][1..] == steps[1..][..k - 1] && steps[1..][k - 1..] == steps[k..];
    }
  }

  // ----- why a task has left, and how much it holds

  /**
   A task has left only for a reason the source gives, and no task holds more than it reads at once: the matcher
   and the tracker 16 records, the writer 128 rows.
   */
  ghost predicate Accountable(s: State) {
    && (s.matcher.MatcherStopped? ==> s.cancelled || (s.blockClosed && s.blockQueue == []))
    && (s.expirer.ExpirerStopped? ==> s.cancelled)
    && (s.tracker.LeftOnClose? ==> s.clientClosed && s.trackerQueue == [])
    && (s.tracker.LeftOnCancel? ==> s.cancelled)
    && (s.writer.WriterDone? ==> s.cancelled)
    && (s.matcher.Draining? ==> 1 <= |s.matcher.rest| <= 16)
    && (s.matcher.Sending? ==> |s.matcher.after| < 16)
    && (s.tracker.Inserting? ==> 1 <= |s.tracker.batch| <= 16)
    && (s.writer.Writing? ==> |s.writer.rows| <= 128)
  }

  lemma AccountableStep(s: State, step: Step)
    requires Accountable(s) && Enabled(s, step)
    ensures Accountable(Apply(s, step))
  {
    match step {
      case ClientSends(_) | ClientCloses | BlockArrives(_) | BlockCloses | Cancels => AccountableOutside(s, step);
      case ExpirerTicks(_) | ExpirerScans(_) | ExpirerStops =>
      case MatcherReceives(_) | MatcherTakes | MatcherSends | MatcherStops => AccountableMatcher(s, step);
      case TrackerReceives(_) | TrackerInserts | TrackerLeavesOnClose | TrackerDumps(_) => AccountableTracker(s, step);
      case WriterReceives(_) | WriterWrites(_) | WriterFlushes(_) | WriterExits => AccountableWriter(s, step);
    }
  }

  lemma AccountableOutside(s: State, step: Step)
    requires Accountable(s) && Enabled(s, step)
    requires step.ClientSends? || step.ClientCloses? || step.BlockArrives? || step.BlockCloses? || step.Cancels?
    ensures Accountable(Apply(s, step))
  {
    match step {
      case ClientSends(_) | ClientCloses | BlockArrives(_) | BlockCloses | Cancels =>
    }
  }

  lemma AccountableWriter(s: State, step: Step)
    requires Accountable(s) && Enabled(s, step)
    requires step.WriterReceives? || step.WriterWrites? || step.WriterFlushes? || step.WriterExits?
    ensures Accountable(Apply(s, step))
  {
    match step {
      case WriterReceives(_) | WriterWrites(_) | WriterFlushes(_) | WriterExits =>
    }
  }

  lemma AccountableMatcher(s: State, step: Step)
    requires Accountable(s) && Enabled(s, step)
    requires step.MatcherReceives? || step.MatcherTakes? || step.MatcherSends? || step.MatcherStops?
    ensures Accountable(Apply(s, step))
  {
    match step {
      case MatcherReceives(_) | MatcherTakes | MatcherSends | MatcherStops =>
    }
  }

  lemma AccountableTracker(s: State, step: Step)
    requires Accountable(s) && Enabled(s, step)
    requires step.TrackerReceives? || step.TrackerInserts? || step.TrackerLeavesOnClose? || step.TrackerDumps?
    ensures Accountable(Apply(s, step))
  {
    match step {
      case TrackerReceives(_) | TrackerInserts | TrackerLeavesOnClose | TrackerDumps(_) =>
    }
  }

  lemma {:induction false} RunKeepsAccountable(s: State, steps: seq<Step>)
    requires Accountable(s) && IsRun(s, steps)
    ensures Accountable(After(s, steps))
    decreases |steps|
  {
    if steps != [] {
      AccountableStep(s, steps[0]);
      RunKeepsAccountable(Apply(s, steps[0]), steps[1..]);
    }
  }

  /** In every run; in particular the writer ends normally only after a cancellation. */
  lemma EveryTaskIsAccountable(steps: seq<Step>)
    requires IsRun(Init, steps)
    ensures Accountable(After(Init, steps))
  {
    RunKeepsAccountable(Init, steps);
  }

  /** When its channel closes the tracker has inserted every record the client sent. */
  lemma ClosedTrackerHasAll(steps: seq<Step>, id: nat)
    requires IsRun(Init, steps) && After(Init, steps).tracker.LeftOnClose?
    ensures id < After(Init, steps).clientNext <==> id in After(Init, steps).tracked
  {
    EveryTaskIsAccountable(steps);
    ReachableInv(steps);
  }

  // ----- what the histories and flags of a run say

  /** The records the client sends in a run, in order. */
  function Records(steps: seq<Step>): seq<CsvRecord> {
    if steps == [] then []
    else (if steps[0].ClientSends? then [steps[0].record] else []) + Records(steps[1..])
  }

  /** The block records that arrive in a run, in order. */
  function Arrivals(steps: seq<Step>): seq<CsvRecord> {
    if steps == [] then []
    else (if steps[0].BlockArrives? then [steps[0].record] else []) + Arrivals(steps[1..])
  }

  lemma OutsideEffect(s: State, step: Step)
    requires Enabled(s, step)
    ensures var s' := Apply(s, step);
            && s'.clientNext == s.clientNext + (if step.ClientSends? then 1 else 0)
            && s'.delivered == s.delivered + (if step.BlockArrives? then [step.record] else [])
            && (s'.clientClosed <==> s.clientClosed || step == ClientCloses)
            && (s'.blockClosed <==> s.blockClosed || step == BlockCloses)
            && (s'.cancelled <==> s.cancelled || step == Cancels)
  {
    assert s.delivered + [] == s.delivered;
    match step {
      case ClientSends(_) | ClientCloses | BlockArrives(_) | BlockCloses | Cancels =>
      case _ => InsideEffect(s, step);
    }
  }

  lemma InsideEffect(s: State, step: Step)
    requires Enabled(s, step) && (Internal(step) || step.ExpirerTicks?)
    ensures var s' := Apply(s, step);
            && s'.clientNext == s.clientNext && s'.delivered == s.delivered
            && s'.clientClosed == s.clientClosed && s'.blockClosed == s.blockClosed && s'.cancelled == s.cancelled
  {
    match step {
      case MatcherReceives(_) | MatcherTakes | MatcherSends | MatcherStops =>
      case ExpirerTicks(_) | ExpirerScans(_) | ExpirerStops =>
      case TrackerReceives(_) | TrackerInserts | TrackerLeavesOnClose | TrackerDumps(_) =>
      case WriterReceives(_) | WriterWrites(_) | WriterFlushes(_) | WriterExits =>
    }
  }

  lemma {:induction false} FlagsFrom(s: State, steps: seq<Step>)
    requires IsRun(s, steps)
    ensures var s' := After(s, steps);
            && s'.clientNext == s.clientNext + |Records(steps)| && s'.delivered == s.delivered + Arrivals(steps)
            && (s'.clientClosed <==> s.clientClosed || ClientCloses in steps)
            && (s'.blockClosed <==> s.blockClosed || BlockCloses in steps)
            && (s'.cancelled <==> s.cancelled || Cancels in steps)
    decreases |steps|
  {
    if steps == [] {
      assert s.delivered + [] == s.delivered;
    } else {
      OutsideEffect(s, steps[0]);
      FlagsFrom(Apply(s, steps[0]), steps[1..]);
      assert steps == [steps[0]] + steps[1..];
      var first := if steps[0].BlockArrives? then [steps[0].record] else [];
      assert s.delivered + first + Arrivals(steps[1..]) == s.delivered + (first + Arrivals(steps[1..]));
    }
  }

  lemma {:induction false} RecordsFrom(s: State, steps: seq<Step>, id: nat)
    requires ClientOrder(s) && IsRun(s, steps) && id < s.clientNext + |Records(steps)|
    ensures ClientOrder(After(s, steps)) && id < After(s, steps).clientNext
    ensures SentRecord(After(s, steps), id)
            == if id < s.clientNext then SentRecord(s, id) else Records(steps)[id - s.clientNext]
    decreases |steps|
  {
    if steps != [] {
      var s' := Apply(s, steps[0]);
      ClientOrderStep(s, steps[0]);
      OutsideEffect(s, steps[0]);
      RecordsFrom(s', steps[1..], id);
      if id < s.clientNext {
        SentRecordKept(s, steps[0], id);
      } else if steps[0].ClientSends? && id == s.clientNext {
        NewestRecord(s, steps[0].record);
      }
    }
  }

  /**
   The histories and flags of a reachable state say what happened in the run: how many records the client sent
   and which, which block records arrived, and whether the channels were closed or the run cancelled.
   */
  lemma RunIsRemembered(steps: seq<Step>)
    requires IsRun(Init, steps)
    ensures var s := After(Init, steps);
            && s.clientNext == |Records(steps)| && s.delivered == Arrivals(steps)
            && (s.clientClosed <==> ClientCloses in steps) && (s.blockClosed <==> BlockCloses in steps)
            && (s.cancelled <==> Cancels in steps)
            && ClientOrder(s) && forall id: nat :: id < s.clientNext ==> SentRecord(s, id) == Records(steps)[id]
  {
    FlagsFrom(Init, steps);
    InvInit();
    ReachableInv(steps);
    forall id: nat | id < After(Init, steps).clientNext
      ensures SentRecord(After(Init, steps), id) == Records(steps)[id]
    {
      RecordsFrom(Init, steps, id);
    }
  }

  // ----- no task waits for what is already there

  /** Whatever has arrived can be taken, up to the number read at once; a closed, drained channel lets its reader go. */
  lemma TasksAreReady(s: State)
    ensures s.matcher.MatcherWaits? && s.blockQueue != [] ==> Enabled(s, MatcherReceives(Min(16, |s.blockQueue|)))
    ensures s.matcher.MatcherWaits? && s.blockClosed && s.blockQueue == [] ==> Enabled(s, MatcherStops)
    ensures s.tracker.TrackerWaits? && s.trackerQueue != [] ==> Enabled(s, TrackerReceives(Min(16, |s.trackerQueue|)))
    ensures s.tracker.TrackerWaits? && s.clientClosed && s.trackerQueue == [] ==> Enabled(s, TrackerLeavesOnClose)
    ensures s.writer.WriterWaits? && s.channel != [] ==> Enabled(s, WriterReceives(Min(128, |s.channel|)))
  {}

  /** A step of one of the four tasks, other than a new tick of the expirer. */
  predicate Internal(step: Step) {
    match step
    case ClientSends(_) | ClientCloses | BlockArrives(_) | BlockCloses | Cancels | ExpirerTicks(_) => false
    case _ => true
  }

  /** All four tasks are over. */
  ghost predicate Finished(s: State) {
    SendersGone(s) && !WriterAlive(s)
  }

  /** A step that can be taken after a cancellation. */
  ghost function NextStep(s: State): Step {
    match s.matcher
    case Draining(_) => MatcherTakes
    case Sending(_, _) => MatcherSends
    case MatcherWaits => MatcherStops
    case MatcherStopped =>
      match s.expirer
      case Scanning(_) => ExpirerScans(|s.pending|)
      case ExpirerWaits => ExpirerStops
      case ExpirerStopped =>
        match s.tracker
        case Inserting(_) => TrackerInserts
        case TrackerWaits => TrackerDumps(|s.pending|)
        case _ =>
          if s.writer.Writing? && s.writer.rows != [] then WriterWrites(true)
          else if s.writer.Writing? then WriterFlushes(true)
          else if s.channel != [] then WriterReceives(1)
          else WriterExits
  }

  lemma NextIsEnabled(s: State)
    requires Accountable(s) && UnwrapsSucceed(s) && s.cancelled && !Finished(s)
    ensures Internal(NextStep(s)) && Enabled(s, NextStep(s))
  {}

  lemma FinishedIsStuck(s: State, step: Step)
    requires Finished(s) && Internal(step)
    ensures !Enabled(s, step)
  {
    match step {
      case MatcherReceives(_) | MatcherTakes | MatcherSends | MatcherStops =>
      case ExpirerScans(_) | ExpirerStops =>
      case TrackerReceives(_) | TrackerInserts | TrackerLeavesOnClose | TrackerDumps(_) =>
      case WriterReceives(_) | WriterWrites(_) | WriterFlushes(_) | WriterExits =>
    }
  }

  /** After a cancellation the tasks come to rest exactly when all of them are over: there is no deadlock. */
  lemma NoDeadlock(steps: seq<Step>)
    requires IsRun(Init, steps) && After(Init, steps).cancelled
    ensures Finished(After(Init, steps)) <==> forall step :: Internal(step) ==> !Enabled(After(Init, steps), step)
  {
    var s := After(Init, steps);
    EveryTaskIsAccountable(steps);
    EveryRecordInOnePlace(steps, 0);
    if Finished(s) {
      forall step | Internal(step) ensures !Enabled(s, step) {
        FinishedIsStuck(s, step);
      }
    } else {
      NextIsEnabled(s);
    }
  }

  // ----- shutdown terminates

  function MatcherWork(m: Matcher): nat {
    match m
    case MatcherStopped => 0
    case MatcherWaits => 1
    case Draining(rest) => 1 + 7 * |rest|
    case Sending(_, after) => 6 + 7 * |after|
  }

  function ExpirerWork(e: Expirer): nat {
    match e case ExpirerStopped => 0 case ExpirerWaits => 1 case Scanning(_) => 2
  }

  function TrackerWork(t: Tracker): nat {
    match t case Inserting(batch) => 2 + 10 * |batch| case TrackerWaits => 1 case _ => 0
  }

  function WriterWork(w: Writer): nat {
    match w case Writing(rows) => 2 + 2 * |rows| case WriterWaits => 1 case _ => 0
  }

  /** A pending record can still become a row by being removed, and another by being dumped. */
  function PendingWork(n: nat, t: Tracker): nat {
    if t.LeftOnClose? || t.LeftOnCancel? then 4 * n else 9 * n
  }

  /** A bound on the steps the tasks can still take by themselves. */
  function Work(s: State): nat {
    8 * |s.blockQueue| + MatcherWork(s.matcher) + ExpirerWork(s.expirer)
    + 12 * |s.trackerQueue| + TrackerWork(s.tracker)
    + PendingWork(|s.pending|, s.tracker) + 4 * |s.channel| + WriterWork(s.writer)
  }

  lemma SizeMinus(t: Table, gone: set<nat>)
    ensures |t - gone| <= |t|
    ensures gone <= t.Keys ==> |t - gone| == |t| - |gone|
  {
    assert (t - gone).Keys == t.Keys - gone && |t.Keys| == |t|;
    SizeOfDifference(t.Keys, gone);
    assert |(t - gone).Keys| == |t - gone|;
  }

  lemma SizeOfDifference(a: set<nat>, b: set<nat>)
    ensures |a - b| <= |a| && (b <= a ==> |a - b| == |a| - |b|)
  {
    assert a == (a - b) + (a * b);
    if b <= a {
      assert a * b == b;
    }
  }

  lemma {:induction false} SizeOfInsert(batch: seq<CsvRecord>, t: Table)
    requires forall r :: r in batch ==> r.transactionId.Some?
    ensures |InsertAll(batch, t)| <= |t| + |batch|
  {
    if batch != [] {
      var before, last := InsertAll(batch[..|batch| - 1], t), batch[|batch| - 1];
      SizeOfInsert(batch[..|batch| - 1], t);
      SizeOfUpdate(before, last.transactionId.value, last);
    }
  }

  lemma SizeOfUpdate(t: Table, id: nat, r: CsvRecord)
    ensures |t[id := r]| <= |t| + 1
  {
    assert t[id := r].Keys == t.Keys + {id};
    assert |t[id := r].Keys| == |t[id := r]| && |t.Keys| == |t|;
    assert id in t.Keys ==> t.Keys + {id} == t.Keys;
  }

  lemma SizeOfScan(s: State, limit: nat)
    requires Enabled(s, ExpirerScans(limit))
    ensures var ids := ScanIds(InOrder(s.pending.Keys), s.pending, s.expirer.now, limit);
            |s.pending - IdSet(ids)| == |s.pending| - |ids|
  {
    var ids := ScanIds(InOrder(s.pending.Keys), s.pending, s.expirer.now, limit);
    IdSetSize(ids);
    SizeMinus(s.pending, IdSet(ids));
  }

  lemma {:induction false} IdSetSize(ids: seq<nat>)
    requires Increasing(ids)
    ensures |IdSet(ids)| == |ids|
  {
    if ids != [] {
      var before, last := ids[..|ids| - 1], ids[|ids| - 1];
      IdSetSize(before);
      assert ids == before + [last] && last !in before;
      assert IdSet(ids) == IdSet(before) + {last};
    }
  }

  lemma MatcherStepWorks(s: State, step: Step)
    requires Enabled(s, step) && Accountable(s)
    requires step.MatcherReceives? || step.MatcherTakes? || step.MatcherSends? || step.MatcherStops?
    ensures Work(Apply(s, step)) < Work(s)
  {
    match step {
      case MatcherReceives(_) | MatcherSends | MatcherStops =>
      case MatcherTakes => TakeWorks(s);
    }
  }

  lemma TakeWorks(s: State)
    requires Enabled(s, MatcherTakes)
    ensures Work(Apply(s, MatcherTakes)) < Work(s)
  {
    SizeMinus(s.pending, MatchKeys(s.matcher.rest[0]));
  }

  lemma ExpirerStepWorks(s: State, step: Step)
    requires Enabled(s, step) && (step.ExpirerScans? || step.ExpirerStops?)
    ensures Work(Apply(s, step)) < Work(s)
  {
    match step {
      case ExpirerScans(limit) => SizeOfScan(s, limit);
      case ExpirerStops =>
    }
  }

  lemma TrackerStepWorks(s: State, step: Step)
    requires Enabled(s, step)
    requires step.TrackerReceives? || step.TrackerInserts? || step.TrackerLeavesOnClose? || step.TrackerDumps?
    ensures Work(Apply(s, step)) < Work(s)
  {
    match step {
      case TrackerReceives(_) | TrackerLeavesOnClose | TrackerDumps(_) =>
      case TrackerInserts => InsertWorks(s);
    }
  }

  lemma InsertWorks(s: State)
    requires Enabled(s, TrackerInserts)
    ensures Work(Apply(s, TrackerInserts)) < Work(s)
  {
    SizeOfInsert(s.tracker.batch, s.pending);
  }

  lemma WriterStepWorks(s: State, step: Step)
    requires Enabled(s, step)
    requires step.WriterReceives? || step.WriterWrites? || step.WriterFlushes? || step.WriterExits?
    ensures Work(Apply(s, step)) < Work(s)
  {
    match step {
      case WriterReceives(_) | WriterWrites(_) | WriterFlushes(_) | WriterExits =>
    }
  }

  /** Every step of a task uses up work. */
  lemma StepWorks(s: State, step: Step)
    requires Enabled(s, step) && Accountable(s) && Internal(step)
    ensures Work(Apply(s, step)) < Work(s)
  {
    match step {
      case MatcherReceives(_) | MatcherTakes | MatcherSends | MatcherStops => MatcherStepWorks(s, step);
      case ExpirerScans(_) | ExpirerStops => ExpirerStepWorks(s, step);
      case TrackerReceives(_) | TrackerInserts | TrackerLeavesOnClose | TrackerDumps(_) => TrackerStepWorks(s, step);
      case WriterReceives(_) | WriterWrites(_) | WriterFlushes(_) | WriterExits => WriterStepWorks(s, step);
    }
  }

  lemma {:induction false} WorkBounds(s: State, steps: seq<Step>)
    requires Accountable(s) && IsRun(s, steps) && forall i :: 0 <= i < |steps| ==> Internal(steps[i])
    ensures |steps| <= Work(s)
    decreases |steps|
  {
    if steps != [] {
      AccountableStep(s, steps[0]);
      StepWorks(s, steps[0]);
      assert forall i :: 0 <= i < |steps| - 1 ==> steps[1..][i] == steps[i + 1];
      WorkBounds(Apply(s, steps[0]), steps[1..]);
    }
  }

  /**
   Left to themselves, and without a new tick of the expirer, the tasks take a bounded number of steps from any
   reachable state; after a cancellation they cannot stop before all of them are over.
   */
  lemma ShutdownTerminates(steps: seq<Step>, more: seq<Step>)
    requires IsRun(Init, steps + more) && forall i :: 0 <= i < |more| ==> Internal(more[i])
    ensures IsRun(Init, steps) && |more| <= Work(After(Init, steps))
    ensures var s := After(Init, steps + more);
            s.cancelled && (forall step :: Internal(step) ==> !Enabled(s, step)) ==> Finished(s)
  {
    RunSplits(Init, steps + more, |steps|);
    assert (steps + more)[..|steps|] == steps && (steps + more)[|steps|..] == more;
    EveryTaskIsAccountable(steps);
    WorkBounds(After(Init, steps), more);
    if After(Init, steps + more).cancelled {
      NoDeadlock(steps + more);
    }
  }
}
