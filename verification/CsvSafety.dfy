/** What every run of the CSV writer protocol keeps. */
module CsvSafety {
  import opened Wrappers
  import opened CsvRecords
  import opened Listing
  import opened Expiry
  import opened CsvProtocol

  // ----- counting rows by origin

  function Count(rows: seq<Row>, o: Origin): nat {
    if rows == [] then 0
    else Count(rows[..|rows| - 1], o) + if rows[|rows| - 1].origin == o then 1 else 0
  }

  lemma {:induction false} CountAppend(a: seq<Row>, b: seq<Row>, o: Origin)
    ensures Count(a + b, o) == Count(a, o) + Count(b, o)
  {
    if b == [] {
      assert a + b == a;
    } else {
      assert (a + b)[..|a + b| - 1] == a + b[..|b| - 1];
      CountAppend(a, b[..|b| - 1], o);
    }
  }

  /** Rows of pairwise different origins contain each origin at most once. */
  lemma {:induction false} CountDistinct(rows: seq<Row>, o: Origin)
    requires forall i, j :: 0 <= i < j < |rows| ==> rows[i].origin != rows[j].origin
    ensures Count(rows, o) == if exists i :: 0 <= i < |rows| && rows[i].origin == o then 1 else 0
  {
    if rows != [] {
      var before := rows[..|rows| - 1];
      CountDistinct(before, o);
      assert forall i :: 0 <= i < |before| ==> before[i] == rows[i];
    }
  }

  lemma {:induction false} CountPositive(rows: seq<Row>, o: Origin)
    ensures Count(rows, o) > 0 <==> exists r :: r in rows && r.origin == o
  {
    if rows != [] {
      CountPositive(rows[..|rows| - 1], o);
      assert rows == rows[..|rows| - 1] + [rows[|rows| - 1]];
    }
  }

  lemma CountOne(row: Row, o: Origin)
    ensures Count([row], o) == if row.origin == o then 1 else 0
  {
    assert [row][..0] == [];
  }

  lemma CountExpired(ids: seq<nat>, t: Table, o: Origin)
    requires Increasing(ids) && forall id :: id in ids ==> id in t
    ensures Count(ExpiredRows(ids, t), o) == if o.Expired? && o.id in ids then 1 else 0
  {
    var rows := ExpiredRows(ids, t);
    CountDistinct(rows, o);
    if o.Expired? && o.id in ids {
      var i :| 0 <= i < |ids| && ids[i] == o.id;
      assert rows[i].origin == o;
    }
  }

  lemma CountDump(t: Table, o: Origin)
    ensures Count(DumpRows(t), o) == if o.Dumped? && o.id in t then 1 else 0
  {
    var rows := DumpRows(t);
    var ids := InOrder(t.Keys);
    CountDistinct(rows, o);
    if o.Dumped? && o.id in t {
      var i :| 0 <= i < |ids| && ids[i] == o.id;
      assert rows[i].origin == o;
    }
  }

  lemma CountPart(rows: seq<Row>, n: nat, o: Origin)
    requires n <= |rows|
    ensures Count(rows, o) == Count(rows[..n], o) + Count(rows[n..], o)
  {
    CountAppend(rows[..n], rows[n..], o);
    assert rows[..n] + rows[n..] == rows;
  }

  // ----- what the lock sections compute

  /** A dump prints the table in id order. */
  lemma DumpAscends(t: Table)
    ensures forall i :: 0 <= i < |DumpRows(t)| ==> DumpRows(t)[i].origin.Dumped?
    ensures forall i, j :: 0 <= i < j < |DumpRows(t)| ==> DumpRows(t)[i].origin.id < DumpRows(t)[j].origin.id
  {}

  /** A scan prints what it removes in id order. */
  lemma ScanAscends(t: Table, now: nat, limit: nat)
    requires Stamped(t)
    ensures var rows := ExpiredRows(ScanIds(InOrder(t.Keys), t, now, limit), t);
            && (forall i :: 0 <= i < |rows| ==> rows[i].origin.Expired?)
            && forall i, j :: 0 <= i < j < |rows| ==> rows[i].origin.id < rows[j].origin.id
  {}

  /** Of several records with one id inserted together the last one stays. */
  lemma {:induction false} LastInsertWins(batch: seq<CsvRecord>, t: Table, id: nat, i: nat)
    requires (forall r :: r in batch ==> r.transactionId.Some?) && IsLastOf(batch, id, i)
    ensures id in InsertAll(batch, t) && InsertAll(batch, t)[id] == batch[i]
  {
    if i < |batch| - 1 {
      assert batch[|batch| - 1].transactionId != Some(id);
      LastInsertWins(batch[..|batch| - 1], t, id, i);
    }
  }

  /** Ids without a record in the batch are left alone. */
  lemma {:induction false} OtherIdsStay(batch: seq<CsvRecord>, t: Table, id: nat)
    requires forall r :: r in batch ==> r.transactionId.Some?
    requires forall i :: 0 <= i < |batch| ==> batch[i].transactionId != Some(id)
    ensures (id in InsertAll(batch, t) <==> id in t) && (id in t ==> InsertAll(batch, t)[id] == t[id])
  {
    if batch != [] {
      OtherIdsStay(batch[..|batch| - 1], t, id);
    }
  }

  ghost predicate IsLastOf(batch: seq<CsvRecord>, id: nat, i: int) {
    && 0 <= i < |batch| && batch[i].transactionId == Some(id)
    && forall j :: i < j < |batch| ==> batch[j].transactionId != Some(id)
  }

  // ----- the order in which records reach the table

  /** Records sent by the client that the tracker has not inserted yet. */
  function Backlog(s: State): seq<CsvRecord> {
    (if s.tracker.Inserting? then s.tracker.batch else []) + s.trackerQueue
  }

  ghost predicate IsSentRecord(r: CsvRecord, id: nat) {
    r.transactionId == Some(id) && r.sentTimestamp.Some?
  }

  /** Ids up to the backlog are tracked, the backlog continues them, and the table holds only tracked records. */
  ghost predicate Ordered(backlog: seq<CsvRecord>, next: nat, tracked: Table, pending: Table) {
    && |backlog| <= next
    && (forall i: nat :: i < |backlog| ==> IsSentRecord(backlog[i], next - |backlog| + i))
    && (forall id: nat :: id in tracked <==> id < next - |backlog|)
    && (forall id: nat :: id in tracked ==> IsSentRecord(tracked[id], id))
    && (forall id: nat :: id in pending ==> id in tracked && pending[id] == tracked[id])
  }

  ghost predicate ClientOrder(s: State) {
    Ordered(Backlog(s), s.clientNext, s.tracked, s.pending)
  }

  lemma {:induction false} InsertConsecutive(batch: seq<CsvRecord>, base: nat, t: Table)
    requires forall i: nat :: i < |batch| ==> IsSentRecord(batch[i], base + i)
    ensures forall r :: r in batch ==> r.transactionId.Some?
    ensures forall id: nat :: id in InsertAll(batch, t) <==> id in t || base <= id < base + |batch|
    ensures forall id: nat :: id in InsertAll(batch, t) ==>
              InsertAll(batch, t)[id] == if base <= id < base + |batch| then batch[id - base] else t[id]
  {
    if batch != [] {
      InsertConsecutive(batch[..|batch| - 1], base, t);
      assert IsSentRecord(batch[|batch| - 1], base + (|batch| - 1));
      assert batch == batch[..|batch| - 1] + [batch[|batch| - 1]];
    }
  }

  lemma OrderedAfterInsert(batch: seq<CsvRecord>, queue: seq<CsvRecord>, next: nat, tracked: Table, pending: Table)
    requires Ordered(batch + queue, next, tracked, pending)
    ensures forall r :: r in batch ==> r.transactionId.Some?
    ensures Ordered(queue, next, InsertAll(batch, tracked), InsertAll(batch, pending))
    ensures var base := next - |batch + queue|;
            forall id: nat :: id in InsertAll(batch, pending) <==> id in pending || base <= id < base + |batch|
  {
    var all := batch + queue;
    var base := next - |all|;
    forall i: nat | i < |batch| ensures IsSentRecord(batch[i], base + i) {
      assert batch[i] == all[i];
    }
    forall i: nat | i < |queue| ensures IsSentRecord(queue[i], next - |queue| + i) {
      assert queue[i] == all[|batch| + i];
    }
    InsertConsecutive(batch, base, pending);
    InsertConsecutive(batch, base, tracked);
  }

  /** The client may send the next record, and the table may lose some. */
  lemma OrderedLater(backlog: seq<CsvRecord>, more: seq<CsvRecord>, next: nat,
                     tracked: Table, pending: Table, left: Table)
    requires Ordered(backlog, next, tracked, pending)
    requires more == [] || (|more| == 1 && IsSentRecord(more[0], next))
    requires forall id: nat :: id in left ==> id in pending && left[id] == pending[id]
    ensures Ordered(backlog + more, next + |more|, tracked, left)
  {}

  predicate Removes(step: Step) {
    step.MatcherTakes? || step.ExpirerScans?
  }

  /** Ids a step takes out of the table. */
  ghost function Gone(s: State, step: Step): set<nat>
    requires Enabled(s, step) && Removes(step)
  {
    match step
    case MatcherTakes => MatchKeys(s.matcher.rest[0])
    case ExpirerScans(limit) => IdSet(ScanIds(InOrder(s.pending.Keys), s.pending, s.expirer.now, limit))
  }

  /** Only the client adds to the backlog, and only the tracker takes from it. */
  lemma BacklogEffect(s: State, step: Step)
    requires Enabled(s, step)
    ensures var s' := Apply(s, step);
            match step
            case ClientSends(r) => Backlog(s') == Backlog(s) + [r] && s'.clientNext == s.clientNext + 1
            case TrackerInserts => Backlog(s') == s.trackerQueue && s'.clientNext == s.clientNext
            case _ => Backlog(s') == Backlog(s) && s'.clientNext == s.clientNext
  {
    match step {
      case TrackerReceives(n) => assert s.trackerQueue[..n] + s.trackerQueue[n..] == s.trackerQueue;
      case TrackerInserts | TrackerLeavesOnClose | TrackerDumps(_) =>
      case ClientSends(_) | ClientCloses =>
      case _ => OthersLeaveBacklog(s, step);
    }
  }

  predicate OfClientOrTracker(step: Step) {
    || step.ClientSends? || step.ClientCloses?
    || step.TrackerReceives? || step.TrackerInserts? || step.TrackerLeavesOnClose? || step.TrackerDumps?
  }

  lemma OthersLeaveBacklog(s: State, step: Step)
    requires Enabled(s, step) && !OfClientOrTracker(step)
    ensures var s' := Apply(s, step);
            s'.tracker == s.tracker && s'.trackerQueue == s.trackerQueue && s'.clientNext == s.clientNext
  {
    match step {
      case BlockArrives(_) | BlockCloses | Cancels =>
      case MatcherReceives(_) | MatcherTakes | MatcherSends | MatcherStops =>
      case ExpirerTicks(_) | ExpirerScans(_) | ExpirerStops =>
      case WriterReceives(_) | WriterWrites(_) | WriterFlushes(_) | WriterExits =>
    }
  }

  lemma InsertMovesBacklog(s: State)
    requires Enabled(s, TrackerInserts)
    ensures var s' := Apply(s, TrackerInserts);
            && Backlog(s) == s.tracker.batch + Backlog(s') && s'.clientNext == s.clientNext
            && s'.tracked == InsertAll(s.tracker.batch, s.tracked)
            && s'.pending == InsertAll(s.tracker.batch, s.pending)
  {}

  lemma RemovalEffect(s: State, step: Step)
    requires Enabled(s, step) && Removes(step)
    ensures Apply(s, step).tracked == s.tracked && Apply(s, step).pending == s.pending - Gone(s, step)
  {
    match step {
      case MatcherTakes =>
      case ExpirerScans(_) =>
    }
  }

  /** Only the tracker inserts, only the matcher and the expirer remove. */
  lemma TableUntouched(s: State, step: Step)
    requires Enabled(s, step) && !Removes(step) && !step.TrackerInserts?
    ensures Apply(s, step).tracked == s.tracked && Apply(s, step).pending == s.pending
  {
    match step {
      case ClientSends(_) | ClientCloses | BlockArrives(_) | BlockCloses | Cancels =>
      case MatcherReceives(_) | MatcherSends | MatcherStops | ExpirerTicks(_) | ExpirerStops =>
      case _ => LateStepsLeaveTable(s, step);
    }
  }

  lemma LateStepsLeaveTable(s: State, step: Step)
    requires Enabled(s, step) && !step.TrackerInserts? && OfTrackerOrWriter(step)
    ensures Apply(s, step).tracked == s.tracked && Apply(s, step).pending == s.pending
  {
    match step {
      case TrackerReceives(_) | TrackerLeavesOnClose | TrackerDumps(_) =>
      case WriterReceives(_) | WriterWrites(_) | WriterFlushes(_) | WriterExits =>
    }
  }

  predicate OfTrackerOrWriter(step: Step) {
    || step.TrackerReceives? || step.TrackerInserts? || step.TrackerLeavesOnClose? || step.TrackerDumps?
    || step.WriterReceives? || step.WriterWrites? || step.WriterFlushes? || step.WriterExits?
  }

  /** Without an insertion the backlog only grows and the table only shrinks. */
  lemma BacklogGrows(s: State, step: Step) returns (more: seq<CsvRecord>)
    requires Enabled(s, step) && !step.TrackerInserts?
    ensures var s' := Apply(s, step);
            && s'.tracked == s.tracked && s'.clientNext == s.clientNext + |more| && Backlog(s') == Backlog(s) + more
            && forall id: nat :: id in s'.pending ==> id in s.pending && s'.pending[id] == s.pending[id]
    ensures more == if step.ClientSends? then [step.record] else []
  {
    BacklogEffect(s, step);
    if Removes(step) {
      RemovalEffect(s, step);
    } else {
      TableUntouched(s, step);
    }
    more := if step.ClientSends? then [step.record] else [];
    assert Backlog(s) + [] == Backlog(s);
  }

  lemma ClientOrderStep(s: State, step: Step)
    requires ClientOrder(s) && Enabled(s, step)
    ensures ClientOrder(Apply(s, step))
  {
    if step.TrackerInserts? {
      InsertMovesBacklog(s);
      InsertKeepsOrder(s, Apply(s, step), s.tracker.batch);
    } else {
      var more := BacklogGrows(s, step);
      OrderedLater(Backlog(s), more, s.clientNext, s.tracked, s.pending, Apply(s, step).pending);
    }
  }

  lemma InsertKeepsOrder(s: State, s': State, batch: seq<CsvRecord>)
    requires ClientOrder(s) && Backlog(s) == batch + Backlog(s') && s'.clientNext == s.clientNext
    requires forall r :: r in batch ==> r.transactionId.Some?
    requires s'.tracked == InsertAll(batch, s.tracked) && s'.pending == InsertAll(batch, s.pending)
    ensures ClientOrder(s')
  {
    OrderedAfterInsert(batch, Backlog(s'), s.clientNext, s.tracked, s.pending);
  }

  // ----- rows entering the channel

  /** Rows a step puts into the channel. */
  ghost function Accepted(s: State, step: Step): seq<Row>
    requires Enabled(s, step)
  {
    match step
    case MatcherSends => if WriterAlive(s) then [s.matcher.row] else []
    case ExpirerScans(limit) =>
      ExpiredRows(ScanIds(InOrder(s.pending.Keys), s.pending, s.expirer.now, limit), s.pending)
    case TrackerDumps(limit) => DumpRows(s.pending)[..Min(limit, |s.pending|)]
    case _ => []
  }

  /** Rows a step loses because the channel is closed. */
  ghost function Refused(s: State, step: Step): seq<Row>
    requires Enabled(s, step)
  {
    match step
    case MatcherSends => if WriterAlive(s) then [] else [s.matcher.row]
    case TrackerDumps(limit) => DumpRows(s.pending)[Min(limit, |s.pending|)..]
    case _ => []
  }

  lemma RowEffect(s: State, step: Step)
    requires Enabled(s, step)
    ensures Apply(s, step).sent == s.sent + Accepted(s, step)
    ensures Apply(s, step).refused == s.refused + Refused(s, step)
  {
    assert s.sent + [] == s.sent && s.refused + [] == s.refused;
  }

  // ----- conservation

  /** What the matcher is about to send is a block row. */
  ghost predicate HandFromBlock(s: State) {
    s.matcher.Sending? ==> s.matcher.row.origin.Unmatched? || s.matcher.row.origin.Matched?
  }

  lemma HandFromBlockStep(s: State, step: Step)
    requires HandFromBlock(s) && Enabled(s, step)
    ensures HandFromBlock(Apply(s, step))
  {}

  function InHand(s: State, id: nat): nat {
    if s.matcher.Sending? && s.matcher.row.origin == Matched(id) then 1 else 0
  }

  function InTable(t: Table, id: nat): nat {
    if id in t then 1 else 0
  }

  /** Rows for which `id` was taken out of the table: merged into a block row, or expired. */
  function Removals(s: State, id: nat): nat {
    InHand(s, id) + Count(s.sent, Matched(id)) + Count(s.refused, Matched(id)) + Count(s.sent, Expired(id))
  }

  /** Every tracked record is in exactly one place, and nothing else is anywhere. */
  ghost predicate Conserved(s: State) {
    forall id: nat :: InTable(s.pending, id) + Removals(s, id) == InTable(s.tracked, id)
  }

  lemma DumpIsNoRemoval(t: Table, n: nat, id: nat)
    requires n <= |t|
    ensures Count(DumpRows(t)[..n], Matched(id)) == Count(DumpRows(t)[..n], Expired(id)) == 0
    ensures Count(DumpRows(t)[n..], Matched(id)) == 0
  {
    CountDump(t, Matched(id));
    CountDump(t, Expired(id));
    CountPart(DumpRows(t), n, Matched(id));
    CountPart(DumpRows(t), n, Expired(id));
  }

  /** What a step moved into the row channel, or lost, for `id`. */
  ghost function Moved(s: State, step: Step, id: nat): nat
    requires Enabled(s, step)
  {
    Count(Accepted(s, step), Matched(id)) + Count(Accepted(s, step), Expired(id)) + Count(Refused(s, step), Matched(id))
  }

  lemma MovedByScan(s: State, limit: nat, id: nat)
    requires Enabled(s, ExpirerScans(limit))
    ensures Moved(s, ExpirerScans(limit), id) == if id in Gone(s, ExpirerScans(limit)) then 1 else 0
    ensures Gone(s, ExpirerScans(limit)) <= s.pending.Keys
  {
    var ids := ScanIds(InOrder(s.pending.Keys), s.pending, s.expirer.now, limit);
    CountExpired(ids, s.pending, Matched(id));
    CountExpired(ids, s.pending, Expired(id));
    assert Accepted(s, ExpirerScans(limit)) == ExpiredRows(ids, s.pending) && Refused(s, ExpirerScans(limit)) == [];
  }

  lemma MovedByOthers(s: State, step: Step, id: nat)
    requires Enabled(s, step) && HandFromBlock(s) && !step.ExpirerScans?
    ensures Moved(s, step, id) == if step == MatcherSends then InHand(s, id) else 0
  {
    match step {
      case TrackerDumps(limit) => DumpIsNoRemoval(s.pending, Min(limit, |s.pending|), id);
      case MatcherSends =>
        CountOne(s.matcher.row, Matched(id));
        CountOne(s.matcher.row, Expired(id));
      case _ =>
    }
  }

  lemma HandEffect(s: State, step: Step, id: nat)
    requires Enabled(s, step)
    ensures InHand(Apply(s, step), id) ==
            match step
            case MatcherTakes => if id in Gone(s, step) && id in s.pending then 1 else 0
            case MatcherSends => 0
            case _ => InHand(s, id)
  {
    if OfTrackerOrWriter(step) {
      LateStepsLeaveMatcher(s, step);
    } else {
      match step {
        case ClientSends(_) | ClientCloses | BlockArrives(_) | BlockCloses | Cancels =>
        case MatcherReceives(_) | MatcherTakes | MatcherSends | MatcherStops =>
        case ExpirerTicks(_) | ExpirerScans(_) | ExpirerStops =>
      }
    }
  }

  lemma LateStepsLeaveMatcher(s: State, step: Step)
    requires Enabled(s, step) && OfTrackerOrWriter(step)
    ensures var s' := Apply(s, step);
            s'.matcher == s.matcher && s'.blockQueue == s.blockQueue && s'.delivered == s.delivered
  {
    match step {
      case TrackerReceives(_) | TrackerInserts | TrackerLeavesOnClose | TrackerDumps(_) =>
      case WriterReceives(_) | WriterWrites(_) | WriterFlushes(_) | WriterExits =>
    }
  }

  /** What a step takes from one place it puts into another. */
  lemma Balance(s: State, step: Step, id: nat)
    requires HandFromBlock(s) && Enabled(s, step) && !step.TrackerInserts?
    ensures var s' := Apply(s, step);
            && s'.tracked == s.tracked
            && InTable(s'.pending, id) + InHand(s', id) + Moved(s, step, id) == InTable(s.pending, id) + InHand(s, id)
  {
    if Removes(step) {
      RemovalEffect(s, step);
    } else {
      TableUntouched(s, step);
    }
    HandEffect(s, step, id);
    match step {
      case ExpirerScans(limit) => MovedByScan(s, limit, id);
      case _ => MovedByOthers(s, step, id);
    }
  }

  lemma InsertBalance(s: State, id: nat)
    requires ClientOrder(s) && Enabled(s, TrackerInserts)
    ensures var s' := Apply(s, TrackerInserts);
            InTable(s'.pending, id) + InTable(s.tracked, id) == InTable(s.pending, id) + InTable(s'.tracked, id)
  {
    InsertMovesBacklog(s);
    InsertAddsToBoth(s.tracker.batch, s.trackerQueue, s.clientNext, s.tracked, s.pending, id);
  }

  lemma InsertAddsToBoth(batch: seq<CsvRecord>, queue: seq<CsvRecord>, next: nat,
                         tracked: Table, pending: Table, id: nat)
    requires Ordered(batch + queue, next, tracked, pending) && forall r :: r in batch ==> r.transactionId.Some?
    ensures InTable(InsertAll(batch, pending), id) + InTable(tracked, id)
            == InTable(pending, id) + InTable(InsertAll(batch, tracked), id)
  {
    OrderedAfterInsert(batch, queue, next, tracked, pending);
    OrderedAfterInsert(batch, queue, next, tracked, tracked);
  }

  lemma ConservedStep(s: State, step: Step)
    requires ClientOrder(s) && HandFromBlock(s) && Conserved(s) && Enabled(s, step)
    ensures Conserved(Apply(s, step))
  {
    var s' := Apply(s, step);
    RowEffect(s, step);
    forall id: nat
      ensures InTable(s'.pending, id) + Removals(s', id) == InTable(s'.tracked, id)
    {
      assert InTable(s.pending, id) + Removals(s, id) == InTable(s.tracked, id);
      CountAppend(s.sent, Accepted(s, step), Matched(id));
      CountAppend(s.sent, Accepted(s, step), Expired(id));
      CountAppend(s.refused, Refused(s, step), Matched(id));
      if step.TrackerInserts? {
        InsertBalance(s, id);
      } else {
        Balance(s, step, id);
      }
    }
  }
}
