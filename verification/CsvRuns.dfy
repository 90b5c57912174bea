/** Theorems about every run of the CSV writer, and the runs that show what it does not promise. */
module CsvRuns {
  import opened Wrappers
  import opened CsvRecords
  import opened Listing
  import opened Expiry
  import opened CsvProtocol
  import opened CsvSafety
  import opened CsvShutdown

  ghost predicate Inv(s: State) {
    && ClientOrder(s) && HandFromBlock(s) && Conserved(s)
    && Fifo(s) && WriterOutlivesSenders(s) && BlockOrder(s)
    && DumpedOnce(s) && DumpFirst(s.sent) && OwnRows(s.sent, s.tracked)
  }

  lemma InvInit()
    ensures Inv(Init)
  {
    assert BlockDone(Init) == [] && BlockTodo(Init) == [];
    assert Rows(Init.handled) == [];
  }

  lemma InvStep(s: State, step: Step)
    requires Inv(s) && Enabled(s, step)
    ensures Inv(Apply(s, step))
  {
    ClientOrderStep(s, step);
    HandFromBlockStep(s, step);
    ConservedStep(s, step);
    FifoStep(s, step);
    WriterOutlivesSendersStep(s, step);
    BlockOrderStep(s, step);
    DumpedOnceStep(s, step);
    DumpFirstStep(s, step);
    OwnRowsStep(s, step);
  }

  lemma {:induction false} RunKeepsInv(s: State, steps: seq<Step>)
    requires Inv(s) && IsRun(s, steps)
    ensures Inv(After(s, steps))
    decreases |steps|
  {
    if steps != [] {
      InvStep(s, steps[0]);
      RunKeepsInv(Apply(s, steps[0]), steps[1..]);
    }
  }

  lemma ReachableInv(steps: seq<Step>)
    requires IsRun(Init, steps)
    ensures Inv(After(Init, steps))
  {
    InvInit();
    RunKeepsInv(Init, steps);
  }

  // ----- safety of every run

  /**
   In every interleaving each record the tracker inserted is in exactly one place: still pending, in the
   matcher's hand, merged into one block row, or expired by one scan. Ids never tracked are nowhere, and no
   lock section ever unwraps a missing id or timestamp.
   */
  lemma EveryRecordInOnePlace(steps: seq<Step>, id: nat)
    requires IsRun(Init, steps)
    ensures var s := After(Init, steps);
            && (if id in s.pending then 1 else 0) + InHand(s, id)
               + Count(s.sent, Matched(id)) + Count(s.refused, Matched(id)) + Count(s.sent, Expired(id))
               == (if id in s.tracked then 1 else 0)
            && (id in s.pending ==> s.pending[id] == s.tracked[id])
            && UnwrapsSucceed(s)
  {
    ReachableInv(steps);
    var s := After(Init, steps);
    assert InTable(s.pending, id) + Removals(s, id) == InTable(s.tracked, id);
    if s.tracker.Inserting? {
      forall r | r in s.tracker.batch ensures r.transactionId.Some? {
        var i :| 0 <= i < |s.tracker.batch| && s.tracker.batch[i] == r;
        assert Backlog(s)[i] == r;
      }
    }
  }

  /** Block records become rows one for one and in order, each with the status of the record it removed. */
  lemma BlockRecordsInOrder(steps: seq<Step>)
    requires IsRun(Init, steps)
    ensures var s := After(Init, steps);
            var done := BlockRows(s.sent) + BlockRows(s.refused) + Hand(s);
            && |done| <= |s.delivered| && s.delivered[|done|..] == BlockTodo(s)
            && forall k :: 0 <= k < |done| ==> MergedFrom(done[k], s.delivered[k], s.tracked)
  {
    ReachableInv(steps);
  }

  /**
   Rows leave the channel in the order they entered it; a transaction is dumped at most once, and a dump row
   precedes the row that takes the dumped transaction out of the table.
   */
  lemma ChannelOrder(steps: seq<Step>)
    requires IsRun(Init, steps)
    ensures var s := After(Init, steps);
            && Rows(s.handled) <= s.sent && s.file == Written(s.handled)
            && (forall id: nat :: Count(s.sent, Dumped(id)) + Count(s.refused, Dumped(id)) <= 1)
            && DumpFirst(s.sent)
  {
    ReachableInv(steps);
  }

  lemma {:induction false} AllWritten(handled: seq<(Row, bool)>)
    requires forall h :: h in handled ==> h.1
    ensures Written(handled) == Rows(handled)
  {
    if handled != [] {
      var before := handled[..|handled| - 1];
      assert handled == before + [handled[|handled| - 1]];
      AllWritten(before);
      assert Rows(handled) == Rows(before) + [handled[|handled| - 1].0];
    }
  }

  predicate Mentions(r: Row, id: nat) {
    r.origin == Matched(id) || r.origin == Expired(id) || r.origin == Dumped(id)
  }

  lemma MentionsCount(rows: seq<Row>, id: nat)
    ensures (exists r :: r in rows && Mentions(r, id))
            <==> Count(rows, Matched(id)) + Count(rows, Expired(id)) + Count(rows, Dumped(id)) > 0
  {
    CountPositive(rows, Matched(id));
    CountPositive(rows, Expired(id));
    CountPositive(rows, Dumped(id));
    if exists r :: r in rows && Mentions(r, id) {
      var r :| r in rows && Mentions(r, id);
    }
  }

  // ----- shutdown

  /** The writer finished because its channel closed, and no write failed. */
  ghost predicate CleanEnd(s: State) {
    s.writer.WriterDone? && forall h :: h in s.handled ==> h.1
  }

  lemma CleanFile(steps: seq<Step>)
    requires IsRun(Init, steps) && CleanEnd(After(Init, steps))
    ensures After(Init, steps).file == After(Init, steps).sent
    ensures SendersGone(After(Init, steps)) && After(Init, steps).refused == []
  {
    ReachableInv(steps);
    var s := After(Init, steps);
    AllWritten(s.handled);
    assert Rows(s.handled) + ([] + []) == Rows(s.handled);
  }

  /**
   After a clean end the file is everything that was sent. A tracked transaction has one row for leaving the
   table, if it left, and one dump row, if it was pending when the tracker dumped.
   */
  lemma CleanEndCounts(steps: seq<Step>, id: nat)
    requires IsRun(Init, steps) && CleanEnd(After(Init, steps)) && id in After(Init, steps).tracked
    ensures var s := After(Init, steps);
            && s.file == s.sent
            && Count(s.file, Matched(id)) + Count(s.file, Expired(id)) == (if id in s.pending then 0 else 1)
            && Count(s.file, Dumped(id)) == (if id in s.dumped then 1 else 0)
  {
    ReachableInv(steps);
    CleanFile(steps);
    var s := After(Init, steps);
    assert InTable(s.pending, id) + Removals(s, id) == InTable(s.tracked, id);
  }

  /** A transaction the tracker never inserted has no row of its own. */
  lemma UntrackedHasNoRow(s: State, id: nat)
    requires Conserved(s) && DumpedOnce(s) && id !in s.tracked
    ensures Count(s.sent, Matched(id)) + Count(s.sent, Expired(id)) + Count(s.sent, Dumped(id)) == 0
  {
    assert InTable(s.pending, id) + Removals(s, id) == InTable(s.tracked, id);
  }

  /**
   Which of the transactions the client sent have a row after a clean end. There are two ways to have none:
   never to have left the tracker's queue, and to be pending still when the tracker left because its channel
   closed.
   */
  lemma CleanEndCoverage(steps: seq<Step>, id: nat)
    requires IsRun(Init, steps) && CleanEnd(After(Init, steps)) && id < After(Init, steps).clientNext
    ensures var s := After(Init, steps);
            (exists r :: r in s.file && Mentions(r, id))
            <==> id < s.clientNext - |s.trackerQueue| && (s.tracker.LeftOnCancel? || id !in s.pending)
  {
    ReachableInv(steps);
    var s := After(Init, steps);
    CleanFile(steps);
    MentionsCount(s.file, id);
    if id in s.tracked {
      CleanEndCounts(steps, id);
    } else {
      UntrackedHasNoRow(s, id);
    }
  }

  // ----- which block records match

  /**
   A block record is matched exactly when its transaction has been tracked and has not left the table before,
   and then it carries the status of the record the tracker inserted. Otherwise it goes out as it came.
   */
  lemma MatchedExactly(steps: seq<Step>)
    requires IsRun(Init, steps) && Enabled(After(Init, steps), MatcherTakes)
    ensures var s := After(Init, steps);
            var r, row := s.matcher.rest[0], Apply(s, MatcherTakes).matcher.row;
            row == if r.transactionId.Some? && IsWaiting(s, r.transactionId.value)
                   then Row(Matched(r.transactionId.value),
                            AsCsvRecord(r.(txStatus := s.tracked[r.transactionId.value].txStatus)))
                   else Row(Unmatched, AsCsvRecord(r))
  {
    ReachableInv(steps);
    var s := After(Init, steps);
    var r := s.matcher.rest[0];
    if r.transactionId.Some? {
      var id := r.transactionId.value;
      assert InTable(s.pending, id) + Removals(s, id) == InTable(s.tracked, id);
    }
  }

  /** The tracker has inserted `id`, and no matched or expired row has been made of it. */
  ghost predicate IsWaiting(s: State, id: nat) {
    && id in s.tracked
    && Count(s.sent, Matched(id)) + Count(s.refused, Matched(id)) + Count(s.sent, Expired(id)) == 0
  }

  // ----- reading the file back

  /** Every record the client sends in the run can be read back. */
  ghost predicate SendsReadable(steps: seq<Step>) {
    forall i :: 0 <= i < |steps| && steps[i].ClientSends? ==> Readable(steps[i].record)
  }

  ghost predicate HoldsReadable(s: State) {
    && (forall i :: 0 <= i < |Backlog(s)| ==> Readable(Backlog(s)[i]))
    && forall id: nat :: id in s.tracked ==> Readable(s.tracked[id])
  }

  lemma InsertKeepsReadable(s: State, s': State, batch: seq<CsvRecord>)
    requires HoldsReadable(s) && Backlog(s) == batch + Backlog(s')
    requires (forall r :: r in batch ==> r.transactionId.Some?) && s'.tracked == InsertAll(batch, s.tracked)
    ensures HoldsReadable(s')
  {
    forall i | 0 <= i < |Backlog(s')| ensures Readable(Backlog(s')[i]) {
      assert Backlog(s')[i] == Backlog(s)[|batch| + i];
    }
    forall i | 0 <= i < |batch| ensures Readable(batch[i]) {
      assert batch[i] == Backlog(s)[i];
    }
    InsertReadable(batch, s.tracked);
  }

  lemma {:induction false} InsertReadable(batch: seq<CsvRecord>, t: Table)
    requires forall r :: r in batch ==> r.transactionId.Some?
    requires (forall i :: 0 <= i < |batch| ==> Readable(batch[i])) && forall id: nat :: id in t ==> Readable(t[id])
    ensures forall id: nat :: id in InsertAll(batch, t) ==> Readable(InsertAll(batch, t)[id])
  {
    if batch != [] {
      InsertReadable(batch[..|batch| - 1], t);
    }
  }

  lemma HoldsReadableStep(s: State, step: Step)
    requires ClientOrder(s) && HoldsReadable(s) && Enabled(s, step)
    requires step.ClientSends? ==> Readable(step.record)
    ensures HoldsReadable(Apply(s, step))
  {
    if step.TrackerInserts? {
      InsertMovesBacklog(s);
      InsertKeepsReadable(s, Apply(s, step), s.tracker.batch);
    } else {
      var more := BacklogGrows(s, step);
      SendKeepsReadable(s, Apply(s, step), more);
    }
  }

  lemma SendKeepsReadable(s: State, s': State, more: seq<CsvRecord>)
    requires HoldsReadable(s) && Backlog(s') == Backlog(s) + more && s'.tracked == s.tracked
    requires forall i :: 0 <= i < |more| ==> Readable(more[i])
    ensures HoldsReadable(s')
  {}

  lemma SendsReadableTail(steps: seq<Step>)
    requires steps != [] && SendsReadable(steps)
    ensures SendsReadable(steps[1..]) && (steps[0].ClientSends? ==> Readable(steps[0].record))
  {
    assert forall i :: 0 <= i < |steps| - 1 ==> steps[1..][i] == steps[i + 1];
  }

  lemma {:induction false} RunKeepsReadable(s: State, steps: seq<Step>)
    requires ClientOrder(s) && HoldsReadable(s) && IsRun(s, steps) && SendsReadable(steps)
    ensures HoldsReadable(After(s, steps))
    decreases |steps|
  {
    if steps != [] {
      SendsReadableTail(steps);
      ClientOrderStep(s, steps[0]);
      HoldsReadableStep(s, steps[0]);
      RunKeepsReadable(Apply(s, steps[0]), steps[1..]);
    }
  }

  /** If what the client sends is readable, every expired or dumped line reads back as the record it sent. */
  lemma OwnLinesReadBack(steps: seq<Step>, r: Row)
    requires IsRun(Init, steps) && SendsReadable(steps)
    requires r in After(Init, steps).sent && (r.origin.Expired? || r.origin.Dumped?)
    ensures var s := After(Init, steps);
            ClientOrder(s) && r.origin.id < s.clientNext && ReadCells(r.cells) == Some(SentRecord(s, r.origin.id))
  {
    ReachableInv(steps);
    InvInit();
    RunKeepsReadable(Init, steps);
    OwnLineReadsBack(After(Init, steps), r);
  }

  lemma OwnLineReadsBack(s: State, r: Row)
    requires ClientOrder(s) && OwnRows(s.sent, s.tracked) && HoldsReadable(s)
    requires r in s.sent && (r.origin.Expired? || r.origin.Dumped?)
    ensures r.origin.id < s.clientNext && ReadCells(r.cells) == Some(SentRecord(s, r.origin.id))
  {
    CellsRoundTrip(s.tracked[r.origin.id]);
  }

  // ----- expiry along a run

  /** The client's clock never steps back along the run. */
  ghost predicate ClockForward(s: State, steps: seq<Step>)
    requires IsRun(s, steps)
    decreases |steps|
  {
    steps == [] ||
    ((steps[0].ClientSends? ==> s.clientTime <= steps[0].record.sentTimestamp.value)
     && ClockForward(Apply(s, steps[0]), steps[1..]))
  }

  /** The record the client sent with `id`. */
  ghost function SentRecord(s: State, id: nat): CsvRecord
    requires ClientOrder(s) && id < s.clientNext
  {
    if id in s.tracked then s.tracked[id] else Backlog(s)[id - (s.clientNext - |Backlog(s)|)]
  }

  lemma SentRecordStamped(s: State, id: nat)
    requires ClientOrder(s) && id < s.clientNext
    ensures SentRecord(s, id).sentTimestamp.Some?
  {
    if id !in s.tracked {
      assert IsSentRecord(Backlog(s)[id - (s.clientNext - |Backlog(s)|)], id);
    }
  }

  ghost function SentAt(s: State, id: nat): nat
    requires ClientOrder(s) && id < s.clientNext
  {
    SentRecordStamped(s, id);
    SentRecord(s, id).sentTimestamp.value
  }

  ghost predicate TimesFollowIds(s: State)
    requires ClientOrder(s)
  {
    && (forall a: nat, b: nat :: a <= b < s.clientNext ==> SentAt(s, a) <= SentAt(s, b))
    && (forall a: nat :: a < s.clientNext ==> SentAt(s, a) <= s.clientTime)
  }

  lemma SentRecordKept(s: State, step: Step, id: nat)
    requires ClientOrder(s) && Enabled(s, step) && ClientOrder(Apply(s, step)) && id < s.clientNext
    ensures id < Apply(s, step).clientNext && SentRecord(Apply(s, step), id) == SentRecord(s, id)
  {
    if step.TrackerInserts? {
      InsertMovesBacklog(s);
      SentKeptByInsert(s, Apply(s, step), s.tracker.batch, id);
    } else {
      var more := BacklogGrows(s, step);
      SentKeptBySend(s, Apply(s, step), more, id);
    }
  }

  lemma SentKeptByInsert(s: State, s': State, batch: seq<CsvRecord>, id: nat)
    requires ClientOrder(s) && ClientOrder(s') && id < s.clientNext == s'.clientNext
    requires Backlog(s) == batch + Backlog(s')
    requires (forall r :: r in batch ==> r.transactionId.Some?) && s'.tracked == InsertAll(batch, s.tracked)
    ensures SentRecord(s', id) == SentRecord(s, id)
  {
    var base := s.clientNext - |Backlog(s)|;
    forall i: nat | i < |batch| ensures IsSentRecord(batch[i], base + i) {
      assert batch[i] == Backlog(s)[i];
    }
    InsertConsecutive(batch, base, s.tracked);
  }

  lemma SentKeptBySend(s: State, s': State, more: seq<CsvRecord>, id: nat)
    requires ClientOrder(s) && ClientOrder(s') && id < s.clientNext && s'.clientNext == s.clientNext + |more|
    requires Backlog(s') == Backlog(s) + more && s'.tracked == s.tracked
    ensures SentRecord(s', id) == SentRecord(s, id)
  {}

  lemma ClientTimeEffect(s: State, step: Step)
    requires Enabled(s, step)
    ensures Apply(s, step).clientTime == if step.ClientSends? then step.record.sentTimestamp.value else s.clientTime
  {
    match step {
      case ClientSends(_) | ClientCloses | BlockArrives(_) | BlockCloses | Cancels =>
      case MatcherReceives(_) | MatcherTakes | MatcherSends | MatcherStops =>
      case ExpirerTicks(_) | ExpirerScans(_) | ExpirerStops =>
      case TrackerReceives(_) | TrackerInserts | TrackerLeavesOnClose | TrackerDumps(_) =>
      case WriterReceives(_) | WriterWrites(_) | WriterFlushes(_) | WriterExits =>
    }
  }

  lemma NewestRecord(s: State, r: CsvRecord)
    requires ClientOrder(s) && Enabled(s, ClientSends(r)) && ClientOrder(Apply(s, ClientSends(r)))
    ensures SentRecord(Apply(s, ClientSends(r)), s.clientNext) == r
  {
    var s' := Apply(s, ClientSends(r));
    assert Backlog(s') == Backlog(s) + [r];
  }

  lemma TimesFollowIdsStep(s: State, step: Step)
    requires ClientOrder(s) && TimesFollowIds(s) && Enabled(s, step)
    requires step.ClientSends? ==> s.clientTime <= step.record.sentTimestamp.value
    ensures ClientOrder(Apply(s, step)) && TimesFollowIds(Apply(s, step))
  {
    ClientOrderStep(s, step);
    BacklogEffect(s, step);
    ClientTimeEffect(s, step);
    var s' := Apply(s, step);
    forall id: nat | id < s'.clientNext
      ensures SentAt(s', id) == if id < s.clientNext then SentAt(s, id) else s'.clientTime
    {
      if id < s.clientNext {
        SentRecordKept(s, step, id);
      } else {
        NewestRecord(s, step.record);
      }
    }
  }

  lemma {:induction false} RunKeepsTimes(s: State, steps: seq<Step>)
    requires ClientOrder(s) && TimesFollowIds(s) && IsRun(s, steps) && ClockForward(s, steps)
    ensures ClientOrder(After(s, steps)) && TimesFollowIds(After(s, steps))
    decreases |steps|
  {
    if steps != [] {
      TimesFollowIdsStep(s, steps[0]);
      RunKeepsTimes(Apply(s, steps[0]), steps[1..]);
    }
  }

  /** The scan writes exactly the rows a full filter would select, in id order, and leaves no old record behind. */
  ghost predicate ScanIsExact(s: State, limit: nat)
    requires ClientOrder(s) && Enabled(s, ExpirerScans(limit))
  {
    var s' := Apply(s, ExpirerScans(limit));
    && s'.sent == s.sent + ExpiredRows(OldIds(InOrder(s.pending.Keys), s.pending, s.expirer.now), s.pending)
    && s'.pending.Keys == set id | id in s.pending && !IsOld(s.pending[id], s.expirer.now)
    && forall id: nat :: id in s'.pending ==> s.expirer.now <= SentAt(s, id) + 70000
  }

  lemma ScanWhenSorted(s: State, limit: nat)
    requires ClientOrder(s) && TimesFollowIds(s) && Enabled(s, ExpirerScans(limit)) && WriterAlive(s)
    ensures ScanIsExact(s, limit)
  {
    PendingIsSorted(s);
    SortedTableScan(s.pending, s.expirer.now, limit);
    RemovalEffect(s, ExpirerScans(limit));
    LeftAreYoung(s, Apply(s, ExpirerScans(limit)).pending, s.expirer.now);
  }

  lemma LeftAreYoung(s: State, left: Table, now: nat)
    requires ClientOrder(s) && Stamped(s.pending)
    requires forall id: nat :: id in left ==> id in s.pending && !IsOld(s.pending[id], now)
    ensures forall id: nat :: id in left ==> now <= SentAt(s, id) + 70000
  {
    forall id: nat | id in left ensures now <= SentAt(s, id) + 70000 {
      OldMeaning(s.pending[id], now);
    }
  }

  lemma PendingIsSorted(s: State)
    requires ClientOrder(s) && TimesFollowIds(s) && Stamped(s.pending)
    ensures SortedByTime(s.pending)
  {
    forall a, b | a in s.pending && b in s.pending && a <= b
      ensures s.pending[a].sentTimestamp.value <= s.pending[b].sentTimestamp.value
    {
      assert SentAt(s, a) <= SentAt(s, b);
    }
  }

  lemma SortedTableScan(t: Table, now: nat, limit: nat)
    requires Stamped(t) && SortedByTime(t) && limit >= |t|
    ensures var ids := ScanIds(InOrder(t.Keys), t, now, limit);
            && ids == OldIds(InOrder(t.Keys), t, now)
            && (t - IdSet(ids)).Keys == set id | id in t && !IsOld(t[id], now)
  {
    SortedScan(InOrder(t.Keys), t, now, limit);
    OldIdsMembers(InOrder(t.Keys), t, now);
  }

  /** In every run in which the client's clock never steps back, every scan with the row channel open is exact. */
  lemma EveryScanIsExact(steps: seq<Step>, limit: nat)
    requires IsRun(Init, steps) && ClockForward(Init, steps)
    requires Enabled(After(Init, steps), ExpirerScans(limit)) && WriterAlive(After(Init, steps))
    ensures ClientOrder(After(Init, steps)) && ScanIsExact(After(Init, steps), limit)
  {
    InvInit();
    RunKeepsTimes(Init, steps);
    ScanWhenSorted(After(Init, steps), limit);
  }

  // ----- what is not promised

  lemma Extend(steps: seq<Step>, s: State, step: Step) returns (more: seq<Step>, s': State)
    requires IsRun(Init, steps) && After(Init, steps) == s && Enabled(s, step)
    ensures IsRun(Init, more) && After(Init, more) == s' && s' == Apply(s, step)
  {
    more, s' := steps + [step], Apply(s, step);
    ExtendFrom(Init, steps, step);
  }

  lemma {:induction false} ExtendFrom(s: State, steps: seq<Step>, step: Step)
    requires IsRun(s, steps) && Enabled(After(s, steps), step)
    ensures IsRun(s, steps + [step]) && After(s, steps + [step]) == Apply(After(s, steps), step)
    decreases |steps|
  {
    var more := steps + [step];
    if steps == [] {
      assert more[1..] == [];
    } else {
      assert more[1..] == steps[1..] + [step];
      ExtendFrom(Apply(s, steps[0]), steps[1..], step);
    }
  }

  const SAMPLE: CsvRecord := CsvRecord("sig", Some(0), Some(1), None, Some(5), None, None, None, [], None, None, None)

  /** The tracker moves all records of its queue into the empty table. */
  lemma TrackAll(before: seq<Step>, s0: State, batch: seq<CsvRecord>, t: Table) returns (steps: seq<Step>, s: State)
    requires IsRun(Init, before) && After(Init, before) == s0
    requires s0.trackerQueue == batch && 1 <= |batch| <= READ_AT_ONCE
    requires s0.tracker.TrackerWaits? && s0.pending == s0.tracked == map[]
    requires (forall r :: r in batch ==> r.transactionId.Some?) && InsertAll(batch, map[]) == t
    ensures IsRun(Init, steps) && After(Init, steps) == s
    ensures s == s0.(trackerQueue := [], pending := t, tracked := t)
  {
    assert batch[..|batch|] == batch && batch[|batch|..] == [];
    steps, s := Extend(before, s0, TrackerReceives(|batch|));
    assert s == s0.(tracker := Inserting(batch), trackerQueue := []);
    steps, s := Extend(steps, s, TrackerInserts);
  }

  lemma SampleInserted()
    ensures InsertAll([SAMPLE], map[]) == map[0 := SAMPLE]
  {
    assert [SAMPLE][..0] == [];
  }

  lemma SampleSent() returns (steps: seq<Step>, s: State)
    ensures IsRun(Init, steps) && After(Init, steps) == s
    ensures s == Init.(clientNext := 1, clientTime := 5, trackerQueue := [SAMPLE])
  {
    steps, s := Extend([], Init, ClientSends(SAMPLE));
    assert [] + [SAMPLE] == [SAMPLE];
  }

  lemma SampleTracked() returns (steps: seq<Step>, s: State)
    ensures IsRun(Init, steps) && After(Init, steps) == s
    ensures s == Init.(clientNext := 1, clientTime := 5, pending := map[0 := SAMPLE], tracked := map[0 := SAMPLE])
  {
    steps, s := SampleSent();
    SampleInserted();
    steps, s := TrackAll(steps, s, [SAMPLE], map[0 := SAMPLE]);
  }

  /** A block with the sample record reaches the matcher. */
  lemma SampleReceived(before: seq<Step>, s0: State) returns (steps: seq<Step>, s: State)
    requires IsRun(Init, before) && After(Init, before) == s0
    requires s0.blockQueue == [] && !s0.blockClosed && s0.matcher.MatcherWaits?
    ensures IsRun(Init, steps) && After(Init, steps) == s
    ensures s == s0.(matcher := Draining([SAMPLE]), delivered := s0.delivered + [SAMPLE])
  {
    steps, s := Extend(before, s0, BlockArrives(SAMPLE));
    assert s.blockQueue == [SAMPLE];
    steps, s := Extend(steps, s, MatcherReceives(1));
    assert [SAMPLE][..1] == [SAMPLE] && [SAMPLE][1..] == [];
  }

  /** With nothing left to handle, all tasks end after a cancellation, the writer last. */
  lemma TasksEnd(before: seq<Step>, s0: State) returns (steps: seq<Step>, s: State)
    requires IsRun(Init, before) && After(Init, before) == s0 && s0.cancelled && s0.channel == []
    requires s0.matcher.MatcherWaits? && s0.expirer.ExpirerWaits? && s0.writer.WriterWaits?
    requires s0.tracker.LeftOnClose? || s0.tracker.LeftOnCancel?
    ensures IsRun(Init, steps) && After(Init, steps) == s
    ensures s == s0.(matcher := MatcherStopped, expirer := ExpirerStopped, writer := WriterDone)
  {
    steps, s := Extend(before, s0, MatcherStops);
    steps, s := Extend(steps, s, ExpirerStops);
    steps, s := Extend(steps, s, WriterExits);
  }

  /** A tracker that leaves because its channel closed can leave a sent record without any line in the file. */
  lemma ClosedChannelLosesRecord() returns (steps: seq<Step>)
    ensures IsRun(Init, steps) && CleanEnd(After(Init, steps))
    ensures 0 in After(Init, steps).tracked && After(Init, steps).file == []
  {
    var s;
    steps, s := SampleTracked();
    steps, s := Extend(steps, s, ClientCloses);
    steps, s := Extend(steps, s, TrackerLeavesOnClose);
    steps, s := Extend(steps, s, Cancels);
    steps, s := TasksEnd(steps, s);
  }

  lemma SampleDumped() returns (steps: seq<Step>, s: State)
    ensures IsRun(Init, steps) && After(Init, steps) == s
    ensures |s.sent| == 1 && s.sent[0].origin == Dumped(0)
    ensures s.pending == map[0 := SAMPLE] && s.matcher == Draining([SAMPLE]) && WriterAlive(s)
  {
    steps, s := SampleTracked();
    steps, s := SampleReceived(steps, s);
    steps, s := Extend(steps, s, Cancels);
    var rows := DumpRows(s.pending);
    assert |rows| == 1 && rows[0].origin == Dumped(0) by {
      assert InOrder(s.pending.Keys)[0] in InOrder(s.pending.Keys);
    }
    assert |s.pending| == 1;
    steps, s := Extend(steps, s, TrackerDumps(1));
    assert s.sent == rows[..1];
  }

  /** Cancellation loses a sent record the tracker has not received: it has no line after a clean end either. */
  lemma CancellationLosesQueuedRecord() returns (steps: seq<Step>)
    ensures IsRun(Init, steps) && CleanEnd(After(Init, steps)) && After(Init, steps).tracker.LeftOnCancel?
    ensures After(Init, steps).clientNext == 1 && After(Init, steps).file == []
  {
    var s;
    steps, s := SampleSent();
    steps, s := Extend(steps, s, Cancels);
    assert DumpRows(map[]) == [];
    steps, s := Extend(steps, s, TrackerDumps(0));
    steps, s := TasksEnd(steps, s);
  }

  /** A drain under way at cancellation sends a second row for a record that was just dumped. */
  lemma LateMatchRepeatsDump() returns (steps: seq<Step>)
    ensures IsRun(Init, steps)
    ensures var sent := After(Init, steps).sent;
            |sent| == 2 && sent[0].origin == Dumped(0) && sent[1].origin == Matched(0)
  {
    var s;
    steps, s := SampleDumped();
    steps, s := Extend(steps, s, MatcherTakes);
    steps, s := Extend(steps, s, MatcherSends);
  }

  lemma SampleOvertaken() returns (steps: seq<Step>, s: State)
    ensures IsRun(Init, steps) && After(Init, steps) == s
    ensures s.sent == [Row(Unmatched, AsCsvRecord(SAMPLE))]
    ensures s.pending == s.tracked == map[] && s.trackerQueue == [SAMPLE]
    ensures s.tracker.TrackerWaits? && s.expirer.ExpirerWaits? && WriterAlive(s)
  {
    steps, s := SampleSent();
    steps, s := SampleReceived(steps, s);
    steps, s := Extend(steps, s, MatcherTakes);
    assert s.pending == map[];
    steps, s := Extend(steps, s, MatcherSends);
  }

  lemma OvertakenTracked() returns (steps: seq<Step>, s: State)
    ensures IsRun(Init, steps) && After(Init, steps) == s
    ensures s.sent == [Row(Unmatched, AsCsvRecord(SAMPLE))] && s.pending == map[0 := SAMPLE]
    ensures s.expirer.ExpirerWaits? && WriterAlive(s)
  {
    steps, s := SampleOvertaken();
    SampleInserted();
    steps, s := TrackAll(steps, s, [SAMPLE], map[0 := SAMPLE]);
  }

  lemma ScanOfSample(t: Table, now: nat)
    requires t == map[0 := SAMPLE] && now == 5 + MAX_TX_AGE_MS + 1
    ensures Stamped(t) && |t| == 1
    ensures ScanIds(InOrder(t.Keys), t, now, 1) == [0]
  {
    var ks := InOrder(t.Keys);
    assert ks == [0] by { assert ks[0] in ks; }
    assert ScanIds(ks[1..], t, now, 0) == [];
  }

  /**
   A block record handled before the tracker inserts its transaction goes out unmatched, and the
   transaction is later expired as if no block had contained it.
   */
  lemma EarlyBlockRowIsNotMatched() returns (steps: seq<Step>)
    ensures IsRun(Init, steps)
    ensures var sent := After(Init, steps).sent;
            && |sent| == 2 && SAMPLE.transactionId == Some(0)
            && sent[0] == Row(Unmatched, AsCsvRecord(SAMPLE)) && sent[1].origin == Expired(0)
  {
    var s;
    steps, s := OvertakenTracked();
    steps, s := SampleExpired(steps, s);
  }

  lemma SampleExpired(before: seq<Step>, s0: State) returns (steps: seq<Step>, s: State)
    requires IsRun(Init, before) && After(Init, before) == s0
    requires s0.pending == map[0 := SAMPLE] && s0.expirer.ExpirerWaits?
    ensures IsRun(Init, steps) && After(Init, steps) == s
    ensures s.sent == s0.sent + [Row(Expired(0), AsCsvRecord(SAMPLE))]
  {
    var now := 5 + MAX_TX_AGE_MS + 1;
    steps, s := Extend(before, s0, ExpirerTicks(now));
    ScanOfSample(s.pending, now);
    assert ExpiredRows([0], s.pending) == [Row(Expired(0), AsCsvRecord(SAMPLE))];
    steps, s := Extend(steps, s, ExpirerScans(1));
  }

  const YOUNG: CsvRecord := SAMPLE.(sentTimestamp := Some(100000))
  const OLD: CsvRecord := SAMPLE.(transactionId := Some(1))

  lemma ScanOfTwo(t: Table, now: nat)
    requires t == map[0 := YOUNG, 1 := OLD] && now == 100000
    ensures Stamped(t) && |t| == 2
    ensures ScanIds(InOrder(t.Keys), t, now, 2) == [] && IsOld(t[1], now)
  {
    var ks := InOrder(t.Keys);
    assert ks[0] in ks && ks[1] in ks && 0 in t.Keys && 1 in t.Keys;
    assert 0 in ks && 1 in ks;
    assert ks[0] == 0;
  }

  lemma TwoInserted()
    ensures InsertAll([YOUNG, OLD], map[]) == map[0 := YOUNG, 1 := OLD]
  {
    assert [YOUNG, OLD][..1] == [YOUNG] && [YOUNG][..0] == [];
    assert InsertAll([YOUNG], map[]) == map[0 := YOUNG];
  }

  lemma TwoTracked() returns (steps: seq<Step>, s: State)
    ensures IsRun(Init, steps) && After(Init, steps) == s
    ensures s.pending == map[0 := YOUNG, 1 := OLD] && s.expirer.ExpirerWaits? && WriterAlive(s)
  {
    steps, s := Extend([], Init, ClientSends(YOUNG));
    steps, s := Extend(steps, s, ClientSends(OLD));
    assert s.trackerQueue == [YOUNG, OLD];
    TwoInserted();
    steps, s := TrackAll(steps, s, [YOUNG, OLD], map[0 := YOUNG, 1 := OLD]);
  }

  /** Once the client's clock has stepped back, a reachable scan leaves an old record pending. */
  lemma ClockStepBackHidesRecord() returns (steps: seq<Step>, s: State)
    ensures IsRun(Init, steps) && After(Init, steps) == s && WriterAlive(s)
    ensures Enabled(s, ExpirerScans(2)) && ClientOrder(s) && !ScanIsExact(s, 2)
    ensures !ClockForward(Init, steps)
  {
    steps, s := TwoTracked();
    steps, s := Extend(steps, s, ExpirerTicks(100000));
    ScanOfTwo(s.pending, 100000);
    assert 1 in Apply(s, ExpirerScans(2)).pending;
    ReachableInv(steps);
    if ClockForward(Init, steps) {
      EveryScanIsExact(steps, 2);
    }
  }
}
