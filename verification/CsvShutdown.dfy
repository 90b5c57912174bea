/** What reaches the file, in which order, and what shutdown can lose or repeat. */
module CsvShutdown {
  import opened Wrappers
  import opened CsvRecords
  import opened Listing
  import opened Expiry
  import opened CsvProtocol
  import opened CsvSafety

  // ----- the channel is first in, first out

  function Rows(handled: seq<(Row, bool)>): seq<Row> {
    seq(|handled|, i requires 0 <= i < |handled| => handled[i].0)
  }

  function Written(handled: seq<(Row, bool)>): seq<Row> {
    if handled == [] then []
    else
      var last := handled[|handled| - 1];
      Written(handled[..|handled| - 1]) + if last.1 then [last.0] else []
  }

  function InFlight(s: State): seq<Row> {
    if s.writer.Writing? then s.writer.rows else []
  }

  /** Rows sent are the rows handled, then those the writer holds, then those in the channel. */
  ghost predicate FifoOf(sent: seq<Row>, handled: seq<(Row, bool)>, held: seq<Row>, channel: seq<Row>, file: seq<Row>) {
    sent == Rows(handled) + (held + channel) && file == Written(handled)
  }

  ghost predicate Fifo(s: State) {
    FifoOf(s.sent, s.handled, InFlight(s), s.channel, s.file)
  }

  lemma FifoWrite(sent: seq<Row>, handled: seq<(Row, bool)>, held: seq<Row>, channel: seq<Row>, file: seq<Row>,
                  ok: bool)
    requires FifoOf(sent, handled, held, channel, file) && held != []
    ensures FifoOf(sent, handled + [(held[0], ok)], held[1..], channel, if ok then file + [held[0]] else file)
  {
    var more := handled + [(held[0], ok)];
    assert more[..|handled|] == handled;
    assert Rows(more) == Rows(handled) + [held[0]];
    assert held == [held[0]] + held[1..];
    assert file + [] == file;
  }

  lemma FifoWriteStep(s: State, ok: bool)
    requires Fifo(s) && Enabled(s, WriterWrites(ok))
    ensures Fifo(Apply(s, WriterWrites(ok)))
  {
    FifoWrite(s.sent, s.handled, s.writer.rows, s.channel, s.file, ok);
  }

  lemma FifoReceiveStep(s: State, n: nat)
    requires Fifo(s) && Enabled(s, WriterReceives(n))
    ensures Fifo(Apply(s, WriterReceives(n)))
  {
    assert s.channel[..n] + s.channel[n..] == s.channel;
  }

  predicate Sends(step: Step) {
    step.MatcherSends? || step.ExpirerScans? || step.TrackerDumps?
  }

  lemma FifoSend(sent: seq<Row>, handled: seq<(Row, bool)>, held: seq<Row>, channel: seq<Row>, file: seq<Row>,
                 more: seq<Row>)
    requires FifoOf(sent, handled, held, channel, file)
    ensures FifoOf(sent + more, handled, held, channel + more, file)
  {
    assert Rows(handled) + (held + channel) + more == Rows(handled) + (held + (channel + more));
  }

  lemma FifoSendStep(s: State, step: Step)
    requires Fifo(s) && Enabled(s, step) && Sends(step)
    ensures Fifo(Apply(s, step))
  {
    RowEffect(s, step);
    ChannelEffect(s, step);
    FifoSend(s.sent, s.handled, InFlight(s), s.channel, s.file, Accepted(s, step));
  }

  lemma FifoStep(s: State, step: Step)
    requires Fifo(s) && Enabled(s, step)
    ensures Fifo(Apply(s, step))
  {
    match step {
      case WriterReceives(n) => FifoReceiveStep(s, n);
      case WriterWrites(ok) => FifoWriteStep(s, ok);
      case _ =>
        if Sends(step) {
          FifoSendStep(s, step);
        } else {
          ChannelUntouched(s, step);
        }
    }
  }

  lemma ChannelEffect(s: State, step: Step)
    requires Enabled(s, step) && Sends(step)
    ensures var s' := Apply(s, step);
            && s'.channel == s.channel + Accepted(s, step)
            && s'.writer == s.writer && s'.handled == s.handled && s'.file == s.file
  {
    assert s.channel + [] == s.channel;
  }

  lemma ChannelUntouched(s: State, step: Step)
    requires Enabled(s, step) && !Sends(step) && !step.WriterReceives? && !step.WriterWrites?
    ensures var s' := Apply(s, step);
            && s'.sent == s.sent && s'.channel == s.channel && s'.handled == s.handled && s'.file == s.file
            && InFlight(s') == InFlight(s)
  {
    match step {
      case ClientSends(_) | ClientCloses | BlockArrives(_) | BlockCloses | Cancels =>
      case MatcherReceives(_) | MatcherTakes | MatcherStops | ExpirerTicks(_) | ExpirerStops =>
      case TrackerReceives(_) | TrackerInserts | TrackerLeavesOnClose =>
      case WriterFlushes(_) | WriterExits =>
    }
  }

  // ----- who may still send

  /** A row is refused only once the writer is gone; the writer finishes only after every sender and every row. */
  ghost predicate WriterOutlivesSenders(s: State) {
    && (WriterAlive(s) ==> s.refused == [])
    && (s.writer.WriterDone? ==> SendersGone(s) && s.refused == [] && s.channel == [])
  }

  lemma WriterOutlivesSendersStep(s: State, step: Step)
    requires WriterOutlivesSenders(s) && Enabled(s, step)
    ensures WriterOutlivesSenders(Apply(s, step))
  {
    RowEffect(s, step);
    match step {
      case ClientSends(_) | ClientCloses | BlockArrives(_) | BlockCloses | Cancels =>
      case MatcherReceives(_) | MatcherTakes | MatcherSends | MatcherStops =>
      case ExpirerTicks(_) | ExpirerScans(_) | ExpirerStops =>
      case TrackerReceives(_) | TrackerInserts | TrackerLeavesOnClose | TrackerDumps(_) =>
      case WriterReceives(_) | WriterWrites(_) | WriterFlushes(_) | WriterExits =>
    }
  }

  // ----- every block record becomes exactly one row, in order

  function BlockRows(rows: seq<Row>): seq<Row> {
    if rows == [] then []
    else
      var last := rows[|rows| - 1];
      BlockRows(rows[..|rows| - 1]) + if last.origin.Unmatched? || last.origin.Matched? then [last] else []
  }

  lemma {:induction false} BlockRowsAppend(a: seq<Row>, b: seq<Row>)
    ensures BlockRows(a + b) == BlockRows(a) + BlockRows(b)
  {
    if b == [] {
      assert a + b == a;
    } else {
      assert (a + b)[..|a + b| - 1] == a + b[..|b| - 1];
      BlockRowsAppend(a, b[..|b| - 1]);
    }
  }

  lemma {:induction false} NoBlockRows(rows: seq<Row>)
    requires forall r :: r in rows ==> !r.origin.Unmatched? && !r.origin.Matched?
    ensures BlockRows(rows) == []
  {
    if rows != [] {
      assert rows == rows[..|rows| - 1] + [rows[|rows| - 1]];
      NoBlockRows(rows[..|rows| - 1]);
    }
  }

  /** The row a block record became: its own cells, with the status the tracked record had if it was pending. */
  ghost predicate MergedFrom(row: Row, r: CsvRecord, tracked: Table) {
    match row.origin
    case Unmatched => row.cells == AsCsvRecord(r)
    case Matched(id) =>
      r.transactionId == Some(id) && id in tracked && row.cells == AsCsvRecord(r.(txStatus := tracked[id].txStatus))
    case _ => false
  }

  function DoneOf(sent: seq<Row>, refused: seq<Row>, hand: seq<Row>): seq<Row> {
    BlockRows(sent) + BlockRows(refused) + hand
  }

  function Hand(s: State): seq<Row> {
    if s.matcher.Sending? then [s.matcher.row] else []
  }

  function BlockDone(s: State): seq<Row> {
    DoneOf(s.sent, s.refused, Hand(s))
  }

  function BlockTodo(s: State): seq<CsvRecord> {
    (match s.matcher
     case Draining(rest) => rest
     case Sending(_, after) => after
     case _ => []) + s.blockQueue
  }

  ghost predicate BlockOrderOf(done: seq<Row>, todo: seq<CsvRecord>, delivered: seq<CsvRecord>, tracked: Table) {
    && |done| <= |delivered|
    && delivered[|done|..] == todo
    && forall k :: 0 <= k < |done| ==> MergedFrom(done[k], delivered[k], tracked)
  }

  ghost predicate BlockOrder(s: State) {
    BlockOrderOf(BlockDone(s), BlockTodo(s), s.delivered, s.tracked)
  }

  /** Rows already made stay what they are when more records are tracked. */
  lemma TrackedGrows(s: State, step: Step)
    requires ClientOrder(s) && Enabled(s, step)
    ensures forall id: nat :: id in s.tracked ==>
              id in Apply(s, step).tracked && Apply(s, step).tracked[id] == s.tracked[id]
  {
    if step.TrackerInserts? {
      InsertMovesBacklog(s);
      InsertGrows(s.tracker.batch, s.trackerQueue, s.clientNext, s.tracked);
    } else {
      var _ := BacklogGrows(s, step);
    }
  }

  lemma InsertGrows(batch: seq<CsvRecord>, queue: seq<CsvRecord>, next: nat, tracked: Table)
    requires Ordered(batch + queue, next, tracked, map[]) && forall r :: r in batch ==> r.transactionId.Some?
    ensures forall id: nat :: id in tracked ==>
              id in InsertAll(batch, tracked) && InsertAll(batch, tracked)[id] == tracked[id]
  {
    var base := next - |batch + queue|;
    forall i: nat | i < |batch| ensures IsSentRecord(batch[i], base + i) {
      assert batch[i] == (batch + queue)[i];
    }
    InsertConsecutive(batch, base, tracked);
  }

  lemma BlockTake(done: seq<Row>, todo: seq<CsvRecord>, delivered: seq<CsvRecord>, tracked: Table, pending: Table)
    requires BlockOrderOf(done, todo, delivered, tracked) && todo != []
    requires forall id: nat :: id in pending ==> id in tracked && pending[id] == tracked[id]
    ensures BlockOrderOf(done + [MatchRow(todo[0], pending)], todo[1..], delivered, tracked)
  {
    assert delivered[|done|] == todo[0];
  }

  lemma TakeEffect(s: State)
    requires Enabled(s, MatcherTakes)
    ensures var s' := Apply(s, MatcherTakes);
            && Hand(s) == [] && Hand(s') == [MatchRow(s.matcher.rest[0], s.pending)]
            && BlockTodo(s)[0] == s.matcher.rest[0] && BlockTodo(s') == BlockTodo(s)[1..]
            && s'.sent == s.sent && s'.refused == s.refused && s'.tracked == s.tracked && s'.delivered == s.delivered
  {
    var s' := Apply(s, MatcherTakes);
    assert s'.matcher == Sending(MatchRow(s.matcher.rest[0], s.pending), s.matcher.rest[1..]);
    TailOfAppend(s.matcher.rest, s.blockQueue);
  }

  lemma TailOfAppend<T>(a: seq<T>, b: seq<T>)
    requires a != []
    ensures (a + b)[0] == a[0] && (a + b)[1..] == a[1..] + b
  {}

  lemma BlockTakeStep(s: State)
    requires BlockOrder(s) && ClientOrder(s) && Enabled(s, MatcherTakes)
    ensures BlockOrder(Apply(s, MatcherTakes))
  {
    TakeEffect(s);
    BlockTake(BlockDone(s), BlockTodo(s), s.delivered, s.tracked, s.pending);
    var rows := BlockRows(s.sent) + BlockRows(s.refused);
    assert rows + [] == rows;
  }

  lemma SendMovesHand(sent: seq<Row>, refused: seq<Row>, row: Row)
    requires row.origin.Unmatched? || row.origin.Matched?
    ensures DoneOf(sent, refused + [row], []) == DoneOf(sent, refused, [row])
    ensures refused == [] ==> DoneOf(sent + [row], refused, []) == DoneOf(sent, refused, [row])
  {
    BlockRowOf(row);
    BlockRowsAppend(sent, [row]);
    BlockRowsAppend(refused, [row]);
    Regroup(BlockRows(sent), BlockRows(refused), [row]);
  }

  lemma Regroup<T>(a: seq<T>, b: seq<T>, c: seq<T>)
    ensures a + (b + c) + [] == a + b + c
    ensures a + c + [] + [] == a + [] + c
  {}

  lemma BlockRowOf(row: Row)
    requires row.origin.Unmatched? || row.origin.Matched?
    ensures BlockRows([row]) == [row]
  {
    assert [row][..0] == [];
  }

  lemma SendEffect(s: State)
    requires Enabled(s, MatcherSends)
    ensures var s' := Apply(s, MatcherSends);
            && Hand(s') == [] && BlockTodo(s') == BlockTodo(s) && s'.tracked == s.tracked && s'.delivered == s.delivered
            && (if WriterAlive(s) then s'.sent == s.sent + [s.matcher.row] && s'.refused == s.refused
                else s'.sent == s.sent && s'.refused == s.refused + [s.matcher.row])
  {}

  lemma BlockSendStep(s: State)
    requires BlockOrder(s) && HandFromBlock(s) && WriterOutlivesSenders(s) && Enabled(s, MatcherSends)
    ensures BlockOrder(Apply(s, MatcherSends))
  {
    SendEffect(s);
    SendMovesHand(s.sent, s.refused, s.matcher.row);
  }

  lemma OwnRowsAreNoBlockRows(s: State, step: Step)
    requires Enabled(s, step) && !step.MatcherSends?
    ensures BlockRows(Accepted(s, step)) == [] && BlockRows(Refused(s, step)) == []
  {
    NoBlockRows(Accepted(s, step));
    NoBlockRows(Refused(s, step));
  }

  lemma DoneKept(sent: seq<Row>, a: seq<Row>, refused: seq<Row>, b: seq<Row>, hand: seq<Row>)
    requires BlockRows(a) == [] && BlockRows(b) == []
    ensures DoneOf(sent + a, refused + b, hand) == DoneOf(sent, refused, hand)
  {
    BlockRowsAppend(sent, a);
    BlockRowsAppend(refused, b);
  }

  lemma HandKept(s: State, step: Step)
    requires Enabled(s, step) && !step.MatcherTakes? && !step.MatcherSends?
    ensures Hand(Apply(s, step)) == Hand(s)
  {
    match step {
      case ClientSends(_) | ClientCloses | BlockArrives(_) | BlockCloses | Cancels =>
      case MatcherReceives(_) | MatcherStops | ExpirerTicks(_) | ExpirerScans(_) | ExpirerStops =>
      case _ => LateStepsLeaveMatcher(s, step);
    }
  }

  /** Expired and dumped rows are not block rows. */
  lemma BlockRowsKept(s: State, step: Step)
    requires Enabled(s, step) && !step.MatcherTakes? && !step.MatcherSends?
    ensures BlockDone(Apply(s, step)) == BlockDone(s)
  {
    RowEffect(s, step);
    HandKept(s, step);
    OwnRowsAreNoBlockRows(s, step);
    DoneKept(s.sent, Accepted(s, step), s.refused, Refused(s, step), Hand(s));
  }

  lemma BlockTodoEffect(s: State, step: Step)
    requires Enabled(s, step) && !step.MatcherTakes? && !step.MatcherSends?
    ensures var more := if step.BlockArrives? then [step.record] else [];
            BlockTodo(Apply(s, step)) == BlockTodo(s) + more && Apply(s, step).delivered == s.delivered + more
  {
    assert BlockTodo(s) + [] == BlockTodo(s) && s.delivered + [] == s.delivered;
    match step {
      case MatcherReceives(n) => assert s.blockQueue[..n] + s.blockQueue[n..] == s.blockQueue;
      case ClientSends(_) | ClientCloses | BlockArrives(_) | BlockCloses | Cancels =>
      case MatcherStops | ExpirerTicks(_) | ExpirerScans(_) | ExpirerStops =>
      case _ => LateStepsLeaveMatcher(s, step);
    }
  }

  lemma BlockOrderGrows(done: seq<Row>, todo: seq<CsvRecord>, delivered: seq<CsvRecord>, tracked: Table,
                        more: seq<CsvRecord>, tracked': Table)
    requires BlockOrderOf(done, todo, delivered, tracked)
    requires forall id: nat :: id in tracked ==> id in tracked' && tracked'[id] == tracked[id]
    ensures BlockOrderOf(done, todo + more, delivered + more, tracked')
  {
    assert (delivered + more)[|done|..] == delivered[|done|..] + more;
    forall k | 0 <= k < |done| ensures MergedFrom(done[k], (delivered + more)[k], tracked') {
      assert MergedFrom(done[k], delivered[k], tracked);
    }
  }

  lemma BlockOtherStep(s: State, step: Step)
    requires BlockOrder(s) && ClientOrder(s) && Enabled(s, step) && !step.MatcherTakes? && !step.MatcherSends?
    ensures BlockOrder(Apply(s, step))
  {
    BlockRowsKept(s, step);
    BlockTodoEffect(s, step);
    TrackedGrows(s, step);
    var more := if step.BlockArrives? then [step.record] else [];
    BlockOrderGrows(BlockDone(s), BlockTodo(s), s.delivered, s.tracked, more, Apply(s, step).tracked);
  }

  lemma BlockOrderStep(s: State, step: Step)
    requires BlockOrder(s) && ClientOrder(s) && HandFromBlock(s) && WriterOutlivesSenders(s) && Enabled(s, step)
    ensures BlockOrder(Apply(s, step))
  {
    match step {
      case MatcherTakes => BlockTakeStep(s);
      case MatcherSends => BlockSendStep(s);
      case _ => BlockOtherStep(s, step);
    }
  }

  // ----- the dump on cancellation

  /** The dump happens once, on the cancel arm, and covers whatever is still pending afterwards. */
  ghost predicate DumpedOnce(s: State) {
    && (!s.tracker.LeftOnCancel? ==> s.dumped == {})
    && (forall id: nat :: id in s.dumped ==> id in s.tracked)
    && (s.tracker.LeftOnCancel? ==> forall id: nat :: id in s.pending ==> id in s.dumped)
    && forall id: nat :: Count(s.sent, Dumped(id)) + Count(s.refused, Dumped(id)) == if id in s.dumped then 1 else 0
  }

  lemma NewDumps(s: State, step: Step, id: nat)
    requires HandFromBlock(s) && Enabled(s, step)
    ensures Count(Accepted(s, step), Dumped(id)) + Count(Refused(s, step), Dumped(id))
            == if step.TrackerDumps? && id in s.pending then 1 else 0
  {
    match step {
      case MatcherSends => CountOne(s.matcher.row, Dumped(id));
      case ExpirerScans(limit) =>
        CountExpired(ScanIds(InOrder(s.pending.Keys), s.pending, s.expirer.now, limit), s.pending, Dumped(id));
      case TrackerDumps(limit) =>
        CountDump(s.pending, Dumped(id));
        CountPart(DumpRows(s.pending), Min(limit, |s.pending|), Dumped(id));
      case _ =>
    }
  }

  lemma DumpSetEffect(s: State, step: Step)
    requires Enabled(s, step)
    ensures var s' := Apply(s, step);
            && (step.TrackerDumps? ==>
                  s'.dumped == s.pending.Keys && s'.tracker.LeftOnCancel? && s'.pending == s.pending)
            && (!step.TrackerDumps? ==>
                  s'.dumped == s.dumped && (s'.tracker.LeftOnCancel? <==> s.tracker.LeftOnCancel?))
            && (s.tracker.LeftOnCancel? ==> forall id: nat :: id in s'.pending ==> id in s.pending)
  {
    match step {
      case ClientSends(_) | ClientCloses | BlockArrives(_) | BlockCloses | Cancels =>
      case MatcherReceives(_) | MatcherTakes | MatcherSends | MatcherStops =>
      case ExpirerTicks(_) | ExpirerScans(_) | ExpirerStops =>
      case TrackerReceives(_) | TrackerInserts | TrackerLeavesOnClose | TrackerDumps(_) =>
      case WriterReceives(_) | WriterWrites(_) | WriterFlushes(_) | WriterExits =>
    }
  }

  lemma DumpedOnceStep(s: State, step: Step)
    requires DumpedOnce(s) && ClientOrder(s) && HandFromBlock(s) && Enabled(s, step)
    ensures DumpedOnce(Apply(s, step))
  {
    var s' := Apply(s, step);
    DumpSetEffect(s, step);
    TrackedGrows(s, step);
    RowEffect(s, step);
    forall id: nat
      ensures Count(s'.sent, Dumped(id)) + Count(s'.refused, Dumped(id)) == if id in s'.dumped then 1 else 0
    {
      NewDumps(s, step, id);
      CountAppend(s.sent, Accepted(s, step), Dumped(id));
      CountAppend(s.refused, Refused(s, step), Dumped(id));
    }
    assert step.TrackerDumps? ==> Enabled(s, step) && s.tracker.TrackerWaits?;
  }

  // ----- a dump row comes before the removal that repeats it

  predicate IsRemoval(o: Origin, id: nat) {
    o == Matched(id) || o == Expired(id)
  }

  ghost predicate DumpFirst(sent: seq<Row>) {
    forall i, j, id: nat {:trigger IsRemoval(sent[j].origin, id), sent[i]} ::
      0 <= i < |sent| && 0 <= j < |sent| && sent[i].origin == Dumped(id) && IsRemoval(sent[j].origin, id) ==> i < j
  }

  lemma NoRemovalYet(s: State, id: nat, row: Row)
    requires Conserved(s) && ClientOrder(s) && id in s.pending && row in s.sent
    ensures !IsRemoval(row.origin, id)
  {
    assert InTable(s.pending, id) + Removals(s, id) == InTable(s.tracked, id);
    CountPositive(s.sent, Matched(id));
    CountPositive(s.sent, Expired(id));
  }

  lemma DumpFirstAppend(sent: seq<Row>, more: seq<Row>)
    requires DumpFirst(sent)
    requires forall i, r, id: nat ::
               0 <= i < |more| && r in sent && more[i].origin == Dumped(id) ==> !IsRemoval(r.origin, id)
    requires (forall r :: r in more ==> r.origin.Dumped?) || (forall r :: r in more ==> !r.origin.Dumped?)
    ensures DumpFirst(sent + more)
  {
    var all := sent + more;
    forall i, j, id: nat
      | 0 <= j <= i < |all| && all[i].origin == Dumped(id)
      ensures !IsRemoval(all[j].origin, id)
    {
      if i < |sent| {
        assert all[i] == sent[i] && all[j] == sent[j];
      } else {
        assert more[i - |sent|] in more;
        if j < |sent| {
          assert all[j] == sent[j] && sent[j] in sent;
        } else {
          assert more[j - |sent|] in more;
        }
      }
    }
  }

  lemma DumpFirstStep(s: State, step: Step)
    requires DumpFirst(s.sent) && Conserved(s) && ClientOrder(s) && HandFromBlock(s) && Enabled(s, step)
    ensures DumpFirst(Apply(s, step).sent)
  {
    RowEffect(s, step);
    var more := Accepted(s, step);
    forall i, r, id: nat | 0 <= i < |more| && r in s.sent && more[i].origin == Dumped(id)
      ensures !IsRemoval(r.origin, id)
    {
      DumpedIsPending(s, step, i);
      NoRemovalYet(s, id, r);
    }
    AcceptedKind(s, step);
    DumpFirstAppend(s.sent, more);
  }

  lemma DumpedIsPending(s: State, step: Step, i: nat)
    requires HandFromBlock(s) && Enabled(s, step) && i < |Accepted(s, step)| && Accepted(s, step)[i].origin.Dumped?
    ensures Accepted(s, step)[i].origin.id in s.pending
  {
    if step.TrackerDumps? {
      var ids := InOrder(s.pending.Keys);
      assert ids[i] in ids;
    }
  }

  lemma AcceptedKind(s: State, step: Step)
    requires HandFromBlock(s) && Enabled(s, step)
    ensures var more := Accepted(s, step);
            (forall r :: r in more ==> r.origin.Dumped?) || (forall r :: r in more ==> !r.origin.Dumped?)
  {
    if step.TrackerDumps? {
      forall r | r in Accepted(s, step) ensures r.origin.Dumped? {}
    } else {
      forall r | r in Accepted(s, step) ensures !r.origin.Dumped? {}
    }
  }

  // ----- rows written for the table's own records

  /** Expired and dumped rows print the tracked record itself. */
  ghost predicate OwnRows(sent: seq<Row>, tracked: Table) {
    forall r :: r in sent && (r.origin.Expired? || r.origin.Dumped?) ==>
      r.origin.id in tracked && r.cells == AsCsvRecord(tracked[r.origin.id])
  }

  lemma OwnRowsStep(s: State, step: Step)
    requires OwnRows(s.sent, s.tracked) && ClientOrder(s) && HandFromBlock(s) && Enabled(s, step)
    ensures OwnRows(Apply(s, step).sent, Apply(s, step).tracked)
  {
    RowEffect(s, step);
    TrackedGrows(s, step);
    forall r | r in Accepted(s, step) && (r.origin.Expired? || r.origin.Dumped?)
      ensures r.origin.id in s.tracked && r.cells == AsCsvRecord(s.tracked[r.origin.id])
    {
      NewOwnRow(s, step, r);
    }
  }

  lemma NewOwnRow(s: State, step: Step, r: Row)
    requires ClientOrder(s) && HandFromBlock(s) && Enabled(s, step)
    requires r in Accepted(s, step) && (r.origin.Expired? || r.origin.Dumped?)
    ensures r.origin.id in s.pending && r.cells == AsCsvRecord(s.pending[r.origin.id])
  {
    match step {
      case ExpirerScans(limit) =>
        OwnExpired(ScanIds(InOrder(s.pending.Keys), s.pending, s.expirer.now, limit), s.pending, r);
      case TrackerDumps(limit) => OwnDumped(s.pending, Min(limit, |s.pending|), r);
      case _ =>
    }
  }

  lemma OwnExpired(ids: seq<nat>, t: Table, r: Row)
    requires (forall id :: id in ids ==> id in t) && r in ExpiredRows(ids, t)
    ensures r.origin.Expired? && r.origin.id in t && r.cells == AsCsvRecord(t[r.origin.id])
  {
    var i :| 0 <= i < |ids| && r == ExpiredRows(ids, t)[i];
    assert ids[i] in ids;
  }

  lemma OwnDumped(t: Table, n: nat, r: Row)
    requires n <= |t| && r in DumpRows(t)[..n]
    ensures r.origin.Dumped? && r.origin.id in t && r.cells == AsCsvRecord(t[r.origin.id])
  {
    var ids := InOrder(t.Keys);
    var i :| 0 <= i < n && r == DumpRows(t)[i];
    assert ids[i] in ids;
  }
}
