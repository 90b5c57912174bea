/**
 The CSV writer as a protocol: a matcher, an expirer, a tracker and a writer share the table of pending
 transactions and one row channel. Every lock section is one step; steps interleave arbitrarily.
 The state also keeps histories (`delivered`, `tracked`, `dumped`, `sent`, `refused`, `handled`) that no step reads.
 */
module CsvProtocol {
  import opened Wrappers
  import opened CsvRecords
  import opened Listing
  import opened Expiry

  const READ_AT_ONCE: nat := 16
  const READ_AT_ONCE_FOR_CSV: nat := 128

  /** Who put a row into the channel, and for which transaction. */
  datatype Origin = Unmatched | Matched(id: nat) | Expired(id: nat) | Dumped(id: nat)

  datatype Row = Row(origin: Origin, cells: seq<string>)

  datatype Matcher =
    MatcherWaits | Draining(rest: seq<CsvRecord>) | Sending(row: Row, after: seq<CsvRecord>) | MatcherStopped
  datatype Expirer = ExpirerWaits | Scanning(now: nat) | ExpirerStopped
  datatype Tracker = TrackerWaits | Inserting(batch: seq<CsvRecord>) | LeftOnClose | LeftOnCancel
  datatype Writer = WriterWaits | Writing(rows: seq<Row>) | WriterDone | WriterFailed

  datatype State = State(
    clientNext: nat, clientTime: nat, clientClosed: bool, trackerQueue: seq<CsvRecord>,
    blockQueue: seq<CsvRecord>, blockClosed: bool, cancelled: bool,
    pending: Table, channel: seq<Row>, file: seq<Row>,
    matcher: Matcher, expirer: Expirer, tracker: Tracker, writer: Writer,
    delivered: seq<CsvRecord>, tracked: Table, dumped: set<nat>,
    sent: seq<Row>, refused: seq<Row>, handled: seq<(Row, bool)>)

  const Init: State := State(
    0, 0, false, [], [], false, false, map[], [], [],
    MatcherWaits, ExpirerWaits, TrackerWaits, WriterWaits, [], map[], {}, [], [], [])

  datatype Step =
    | ClientSends(record: CsvRecord) | ClientCloses
    | BlockArrives(record: CsvRecord) | BlockCloses | Cancels
    | MatcherReceives(n: nat) | MatcherTakes | MatcherSends | MatcherStops
    | ExpirerTicks(now: nat) | ExpirerScans(limit: nat) | ExpirerStops
    | TrackerReceives(n: nat) | TrackerInserts | TrackerLeavesOnClose | TrackerDumps(limit: nat)
    | WriterReceives(n: nat) | WriterWrites(ok: bool) | WriterFlushes(ok: bool) | WriterExits

  // ----- what the lock sections compute

  /** `pending_txs.remove` for a block record, and the row the record becomes. */
  function MatchRow(r: CsvRecord, t: Table): Row {
    if r.transactionId.Some? && r.transactionId.value in t
    then Row(Matched(r.transactionId.value), AsCsvRecord(r.(txStatus := t[r.transactionId.value].txStatus)))
    else Row(Unmatched, AsCsvRecord(r))
  }

  function MatchKeys(r: CsvRecord): set<nat> {
    if r.transactionId.Some? then {r.transactionId.value} else {}
  }

  function InsertAll(batch: seq<CsvRecord>, t: Table): Table
    requires forall r :: r in batch ==> r.transactionId.Some?
  {
    if batch == [] then t
    else
      var last := batch[|batch| - 1];
      InsertAll(batch[..|batch| - 1], t)[last.transactionId.value := last]
  }

  function IdSet(ids: seq<nat>): set<nat> {
    set id | id in ids
  }

  function ExpiredRows(ids: seq<nat>, t: Table): (rows: seq<Row>)
    requires forall id :: id in ids ==> id in t
    ensures |rows| == |ids|
  {
    seq(|ids|, i requires 0 <= i < |ids| => Row(Expired(ids[i]), AsCsvRecord(t[ids[i]])))
  }

  ghost function DumpRows(t: Table): (rows: seq<Row>)
    ensures |rows| == |t|
  {
    var ids := InOrder(t.Keys);
    seq(|ids|, i requires 0 <= i < |ids| => assert ids[i] in ids; Row(Dumped(ids[i]), AsCsvRecord(t[ids[i]])))
  }

  function Min(a: nat, b: nat): nat { if a <= b then a else b }

  function Accept(s: State, rows: seq<Row>): State {
    s.(channel := s.channel + rows, sent := s.sent + rows)
  }

  // ----- steps

  predicate WriterAlive(s: State) {
    s.writer.WriterWaits? || s.writer.Writing?
  }

  predicate SendersGone(s: State) {
    s.matcher.MatcherStopped? && s.expirer.ExpirerStopped? && (s.tracker.LeftOnClose? || s.tracker.LeftOnCancel?)
  }

  /** A record as the client builds it: the next id, and the time at which it was sent. */
  predicate IsNextClientRecord(s: State, r: CsvRecord) {
    r.transactionId == Some(s.clientNext) && r.sentTimestamp.Some?
  }

  /** The lock section does not panic: every unwrapped option is present. */
  ghost predicate UnwrapsSucceed(s: State) {
    && (s.expirer.Scanning? ==> Stamped(s.pending))
    && (s.tracker.Inserting? ==> forall r :: r in s.tracker.batch ==> r.transactionId.Some?)
  }

  /** `limit` bounds the rows the channel accepts during a lock section; it matters once the writer is gone. */
  ghost predicate Enabled(s: State, step: Step) {
    match step
    case ClientSends(r) => !s.clientClosed && IsNextClientRecord(s, r)
    case ClientCloses => !s.clientClosed
    case BlockArrives(r) => !s.blockClosed
    case BlockCloses => !s.blockClosed
    case Cancels => true
    case MatcherReceives(n) => s.matcher.MatcherWaits? && 1 <= n <= Min(READ_AT_ONCE, |s.blockQueue|)
    case MatcherTakes => s.matcher.Draining? && s.matcher.rest != []
    case MatcherSends => s.matcher.Sending?
    case MatcherStops => s.matcher.MatcherWaits? && (s.cancelled || (s.blockClosed && s.blockQueue == []))
    case ExpirerTicks(now) => s.expirer.ExpirerWaits?
    case ExpirerScans(limit) => s.expirer.Scanning? && Stamped(s.pending) && (WriterAlive(s) ==> limit >= |s.pending|)
    case ExpirerStops => s.expirer.ExpirerWaits? && s.cancelled
    case TrackerReceives(n) => s.tracker.TrackerWaits? && 1 <= n <= Min(READ_AT_ONCE, |s.trackerQueue|)
    case TrackerInserts => s.tracker.Inserting? && forall r :: r in s.tracker.batch ==> r.transactionId.Some?
    case TrackerLeavesOnClose => s.tracker.TrackerWaits? && s.clientClosed && s.trackerQueue == []
    case TrackerDumps(limit) => s.tracker.TrackerWaits? && s.cancelled && (WriterAlive(s) ==> limit >= |s.pending|)
    case WriterReceives(n) => s.writer.WriterWaits? && 1 <= n <= Min(READ_AT_ONCE_FOR_CSV, |s.channel|)
    case WriterWrites(ok) => s.writer.Writing? && s.writer.rows != []
    case WriterFlushes(ok) => s.writer.Writing? && s.writer.rows == []
    case WriterExits => s.writer.WriterWaits? && SendersGone(s) && s.channel == []
  }

  ghost function Apply(s: State, step: Step): State
    requires Enabled(s, step)
  {
    match step
    case ClientSends(r) =>
      s.(trackerQueue := s.trackerQueue + [r], clientNext := s.clientNext + 1, clientTime := r.sentTimestamp.value)
    case ClientCloses => s.(clientClosed := true)
    case BlockArrives(r) => s.(blockQueue := s.blockQueue + [r], delivered := s.delivered + [r])
    case BlockCloses => s.(blockClosed := true)
    case Cancels => s.(cancelled := true)
    case MatcherReceives(n) => s.(matcher := Draining(s.blockQueue[..n]), blockQueue := s.blockQueue[n..])
    case MatcherTakes =>
      var r := s.matcher.rest[0];
      s.(matcher := Sending(MatchRow(r, s.pending), s.matcher.rest[1..]), pending := s.pending - MatchKeys(r))
    case MatcherSends =>
      var row := s.matcher.row;
      var next := s.(matcher := if s.matcher.after == [] then MatcherWaits else Draining(s.matcher.after));
      if WriterAlive(s) then Accept(next, [row]) else next.(refused := s.refused + [row])
    case MatcherStops => s.(matcher := MatcherStopped)
    case ExpirerTicks(now) => s.(expirer := Scanning(now))
    case ExpirerScans(limit) =>
      var ids := ScanIds(InOrder(s.pending.Keys), s.pending, s.expirer.now, limit);
      Accept(s.(expirer := ExpirerWaits, pending := s.pending - IdSet(ids)), ExpiredRows(ids, s.pending))
    case ExpirerStops => s.(expirer := ExpirerStopped)
    case TrackerReceives(n) => s.(tracker := Inserting(s.trackerQueue[..n]), trackerQueue := s.trackerQueue[n..])
    case TrackerInserts =>
      s.(tracker := TrackerWaits, pending := InsertAll(s.tracker.batch, s.pending),
         tracked := InsertAll(s.tracker.batch, s.tracked))
    case TrackerLeavesOnClose => s.(tracker := LeftOnClose)
    case TrackerDumps(limit) =>
      var rows := DumpRows(s.pending);
      var n := Min(limit, |rows|);
      Accept(s.(tracker := LeftOnCancel, dumped := s.pending.Keys, refused := s.refused + rows[n..]), rows[..n])
    case WriterReceives(n) => s.(writer := Writing(s.channel[..n]), channel := s.channel[n..])
    case WriterWrites(ok) =>
      var row := s.writer.rows[0];
      s.(writer := Writing(s.writer.rows[1..]), handled := s.handled + [(row, ok)],
         file := if ok then s.file + [row] else s.file)
    case WriterFlushes(ok) => s.(writer := if ok then WriterWaits else WriterFailed)
    case WriterExits => s.(writer := WriterDone)
  }

  // ----- runs

  ghost predicate IsRun(s: State, steps: seq<Step>)
    decreases |steps|
  {
    steps == [] || (Enabled(s, steps[0]) && IsRun(Apply(s, steps[0]), steps[1..]))
  }

  ghost function After(s: State, steps: seq<Step>): State
    requires IsRun(s, steps)
    decreases |steps|
  {
    if steps == [] then s else After(Apply(s, steps[0]), steps[1..])
  }
}
