/** The record written per transaction, its unquoted row, and the reader that undoes it. */
module CsvRecords {
  import opened Wrappers
  import opened Text

  datatype SendStatus = Sent | FullChannel | ReceiverDropped | Other

  datatype CsvRecord = CsvRecord(
    signature: string,
    transactionId: Option<nat>,
    sentSlot: Option<nat>,
    receivedSlot: Option<nat>,
    sentTimestamp: Option<nat>,
    receivedTimestamp: Option<nat>,
    receivedSubscrTimestamp: Option<nat>,
    indexInBlock: Option<nat>,
    txStatus: seq<(SendStatus, string)>,
    tick: Option<nat>,
    txType: Option<string>,
    numTransactionInBlock: Option<nat>)

  const COLUMNS: nat := 12

  function FieldNames(): (names: seq<string>)
    ensures |names| == COLUMNS
  {
    [ "signature", "transaction_id", "sent_slot", "received_slot", "sent_timestamp", "received_timestamp",
      "received_subscr_timestamp", "index_in_block", "tx_status", "tick", "tx_type", "num_transaction_in_block" ]
  }

  // ----- printing

  function PrintNumber(n: Option<nat>): string {
    match n case None => "" case Some(v) => Decimal(v)
  }

  function StatusName(s: SendStatus): string {
    match s
    case Sent => "Sent"
    case FullChannel => "FullChannel"
    case ReceiverDropped => "ReceiverDropped"
    case Other => "Other"
  }

  function PrintStatus(status: (SendStatus, string)): string {
    StatusName(status.0) + "(" + status.1 + ")"
  }

  function Printed(statuses: seq<(SendStatus, string)>): seq<string> {
    seq(|statuses|, i requires 0 <= i < |statuses| => PrintStatus(statuses[i]))
  }

  function PrintStatuses(statuses: seq<(SendStatus, string)>): string {
    Join(Printed(statuses), '|')
  }

  function AsCsvRecord(r: CsvRecord): (row: seq<string>)
    ensures |row| == COLUMNS
  {
    [ r.signature,
      PrintNumber(r.transactionId),
      PrintNumber(r.sentSlot),
      PrintNumber(r.receivedSlot),
      PrintNumber(r.sentTimestamp),
      PrintNumber(r.receivedTimestamp),
      PrintNumber(r.receivedSubscrTimestamp),
      PrintNumber(r.indexInBlock),
      PrintStatuses(r.txStatus),
      PrintNumber(r.tick),
      if r.txType.Some? then r.txType.value else "",
      PrintNumber(r.numTransactionInBlock) ]
  }

  /** Rows as the writer lays them out, never quoted: cells joined by commas, a line break after each row. */
  function FileText(rows: seq<seq<string>>): string {
    if rows == [] then [] else Join(rows[0], ',') + ['\n'] + FileText(rows[1..])
  }

  // ----- reading back

  function ReadNumber(s: string): Option<Option<nat>> {
    if s == "" then Some(None)
    else match ParseUnsigned(s, U64_MAX)
         case Some(v) => Some(Some(v))
         case None => None
  }

  function ReadStatusName(s: string): Option<SendStatus> {
    if s == "Sent" then Some(Sent)
    else if s == "FullChannel" then Some(FullChannel)
    else if s == "ReceiverDropped" then Some(ReceiverDropped)
    else if s == "Other" then Some(Other)
    else None
  }

  function ReadStatus(s: string): Option<(SendStatus, string)> {
    var parts := Split(s, '(');
    if |parts| != 2 || parts[1] == [] then None
    else
      var address := parts[1][..|parts[1]| - 1];
      match ReadStatusName(parts[0])
      case Some(status) => Some((status, address))
      case None => None
  }

  function ReadStatusList(parts: seq<string>): Option<seq<(SendStatus, string)>> {
    if parts == [] then Some([])
    else match (ReadStatus(parts[0]), ReadStatusList(parts[1..]))
         case (Some(s), Some(rest)) => Some([s] + rest)
         case _ => None
  }

  function ReadStatuses(s: string): Option<seq<(SendStatus, string)>> {
    if s == "" then Some([]) else ReadStatusList(Split(s, '|'))
  }

  function ReadCells(row: seq<string>): Option<CsvRecord> {
    if |row| != COLUMNS then None
    else
      Assemble(row[0], ReadNumber(row[1]), ReadNumber(row[2]), ReadNumber(row[3]), ReadNumber(row[4]),
               ReadNumber(row[5]), ReadNumber(row[6]), ReadNumber(row[7]), ReadStatuses(row[8]), ReadNumber(row[9]),
               if row[10] == "" then None else Some(row[10]), ReadNumber(row[11]))
  }

  /** A record, if every cell could be read. */
  function Assemble(signature: string, id: Option<Option<nat>>, sentSlot: Option<Option<nat>>,
                    receivedSlot: Option<Option<nat>>, sentTimestamp: Option<Option<nat>>,
                    receivedTimestamp: Option<Option<nat>>, subscrTimestamp: Option<Option<nat>>,
                    index: Option<Option<nat>>, statuses: Option<seq<(SendStatus, string)>>,
                    tick: Option<Option<nat>>, kind: Option<string>, num: Option<Option<nat>>): Option<CsvRecord>
  {
    if id == None || sentSlot == None || receivedSlot == None || sentTimestamp == None || receivedTimestamp == None
       || subscrTimestamp == None || index == None || statuses == None || tick == None || num == None then None
    else
      Some(CsvRecord(signature, id.value, sentSlot.value, receivedSlot.value, sentTimestamp.value,
                     receivedTimestamp.value, subscrTimestamp.value, index.value, statuses.value, tick.value, kind,
                     num.value))
  }

  function ReadLines(lines: seq<string>): seq<seq<string>> {
    seq(|lines|, i requires 0 <= i < |lines| => Split(lines[i], ','))
  }

  /** Every line but the empty piece after the last line break. */
  function ReadFile(text: string): seq<seq<string>> {
    var lines := Split(text, '\n');
    ReadLines(lines[..|lines| - 1])
  }

  // ----- when reading undoes printing

  predicate InRange(n: Option<nat>) {
    n.Some? ==> n.value <= U64_MAX
  }

  predicate PlainCell(s: string) {
    Free(s, ',') && Free(s, '\n')
  }

  predicate PlainAddress(s: string) {
    PlainCell(s) && Free(s, '|') && Free(s, '(')
  }

  ghost predicate Plain(r: CsvRecord) {
    && PlainCell(r.signature)
    && InRange(r.transactionId) && InRange(r.sentSlot) && InRange(r.receivedSlot)
    && InRange(r.sentTimestamp) && InRange(r.receivedTimestamp) && InRange(r.receivedSubscrTimestamp)
    && InRange(r.indexInBlock) && InRange(r.tick) && InRange(r.numTransactionInBlock)
    && (forall i :: 0 <= i < |r.txStatus| ==> PlainAddress(r.txStatus[i].1))
    && (r.txType.Some? ==> PlainCell(r.txType.value))
  }

  lemma NumberRoundTrip(n: Option<nat>)
    requires InRange(n)
    ensures ReadNumber(PrintNumber(n)) == Some(n)
  {
    if n.Some? {
      ParseDecimal(n.value, U64_MAX);
    }
  }

  lemma NumberIsPlain(n: Option<nat>)
    ensures PlainCell(PrintNumber(n))
  {}

  predicate Punctuation(c: char) {
    c == '(' || c == '|' || c == ',' || c == '\n'
  }

  lemma NameRoundTrip(status: SendStatus)
    ensures ReadStatusName(StatusName(status)) == Some(status)
    ensures forall c :: Punctuation(c) ==> Free(StatusName(status), c)
  {
    if status == FullChannel {
      assert StatusName(status)[0] != "Sent"[0];
    } else if status == ReceiverDropped {
      assert StatusName(status)[0] != "Sent"[0] && StatusName(status)[0] != "FullChannel"[0];
    } else if status == Other {
      assert StatusName(status)[0] != "Sent"[0] && StatusName(status)[0] != "FullChannel"[0]
          && StatusName(status)[0] != "ReceiverDropped"[0];
    }
  }

  lemma StatusRoundTrip(s: (SendStatus, string))
    requires PlainAddress(s.1)
    ensures ReadStatus(PrintStatus(s)) == Some(s)
    ensures PrintStatus(s) != "" && Free(PrintStatus(s), '|') && PlainCell(PrintStatus(s))
  {
    var name := StatusName(s.0);
    NameRoundTrip(s.0);
    assert Punctuation('(') && Punctuation('|') && Punctuation(',') && Punctuation('\n');
    SplitFirst(name, '(', s.1 + ")");
    SplitFree(s.1 + ")", '(');
    assert PrintStatus(s) == name + ['('] + (s.1 + ")");
    assert (s.1 + ")")[..|s.1 + ")"| - 1] == s.1;
  }

  lemma PrintedTail(statuses: seq<(SendStatus, string)>)
    requires statuses != []
    ensures Printed(statuses)[0] == PrintStatus(statuses[0]) && Printed(statuses)[1..] == Printed(statuses[1..])
  {}

  lemma {:induction false} StatusListRoundTrip(statuses: seq<(SendStatus, string)>)
    requires forall i :: 0 <= i < |statuses| ==> PlainAddress(statuses[i].1)
    ensures ReadStatusList(Printed(statuses)) == Some(statuses)
  {
    if statuses != [] {
      StatusRoundTrip(statuses[0]);
      StatusListRoundTrip(statuses[1..]);
      PrintedTail(statuses);
      assert [statuses[0]] + statuses[1..] == statuses;
    }
  }

  lemma StatusesRoundTrip(statuses: seq<(SendStatus, string)>)
    requires forall i :: 0 <= i < |statuses| ==> PlainAddress(statuses[i].1)
    ensures ReadStatuses(PrintStatuses(statuses)) == Some(statuses)
    ensures PlainCell(PrintStatuses(statuses))
  {
    var parts := Printed(statuses);
    forall i | 0 <= i < |statuses|
      ensures parts[i] != "" && Free(parts[i], '|') && PlainCell(parts[i])
    {
      StatusRoundTrip(statuses[i]);
    }
    JoinFree(parts, '|', ',');
    JoinFree(parts, '|', '\n');
    if statuses != [] {
      StatusListRoundTrip(statuses);
      SplitJoin(parts, '|');
      assert Join(parts, '|') != "" by { assert parts[0] != ""; }
    }
  }

  /** The cells of the row hold what the client knows of the transaction. */
  ghost predicate HoldsSent(row: seq<string>, r: CsvRecord) {
    && |row| == COLUMNS && row[0] == r.signature
    && ReadNumber(row[1]) == Some(r.transactionId) && ReadNumber(row[2]) == Some(r.sentSlot)
    && ReadNumber(row[4]) == Some(r.sentTimestamp)
  }

  /** The cells of the row hold when the transaction was received. */
  ghost predicate HoldsReceived(row: seq<string>, r: CsvRecord) {
    && |row| == COLUMNS && ReadNumber(row[3]) == Some(r.receivedSlot)
    && ReadNumber(row[5]) == Some(r.receivedTimestamp) && ReadNumber(row[6]) == Some(r.receivedSubscrTimestamp)
  }

  /** The cells of the row hold the place of the transaction in its block. */
  ghost predicate HoldsPlace(row: seq<string>, r: CsvRecord) {
    && |row| == COLUMNS && ReadNumber(row[7]) == Some(r.indexInBlock)
    && ReadNumber(row[9]) == Some(r.tick) && ReadNumber(row[11]) == Some(r.numTransactionInBlock)
  }

  ghost predicate Holds(row: seq<string>, r: CsvRecord) {
    HoldsSent(row, r) && HoldsReceived(row, r) && HoldsPlace(row, r) && ReadStatuses(row[8]) == Some(r.txStatus)
  }

  lemma SentHeld(r: CsvRecord)
    requires Plain(r)
    ensures HoldsSent(AsCsvRecord(r), r)
  {
    NumberRoundTrip(r.transactionId);
    NumberRoundTrip(r.sentSlot);
    NumberRoundTrip(r.sentTimestamp);
  }

  lemma ReceivedHeld(r: CsvRecord)
    requires Plain(r)
    ensures HoldsReceived(AsCsvRecord(r), r)
  {
    NumberRoundTrip(r.receivedSlot);
    NumberRoundTrip(r.receivedTimestamp);
    NumberRoundTrip(r.receivedSubscrTimestamp);
  }

  lemma PlaceHeld(r: CsvRecord)
    requires Plain(r)
    ensures HoldsPlace(AsCsvRecord(r), r)
  {
    NumberRoundTrip(r.indexInBlock);
    NumberRoundTrip(r.tick);
    NumberRoundTrip(r.numTransactionInBlock);
  }

  lemma HeldIsRead(row: seq<string>, r: CsvRecord)
    requires Holds(row, r) && row[10] == if r.txType.Some? then r.txType.value else ""
    ensures ReadCells(row) == Some(if r.txType == Some("") then r.(txType := None) else r)
  {}

  /** The cells of a plain record read back as that record, but for an empty type, which reads as none. */
  lemma CellsRead(r: CsvRecord)
    requires Plain(r)
    ensures ReadCells(AsCsvRecord(r)) == Some(if r.txType == Some("") then r.(txType := None) else r)
  {
    SentHeld(r);
    ReceivedHeld(r);
    PlaceHeld(r);
    StatusesRoundTrip(r.txStatus);
    HeldIsRead(AsCsvRecord(r), r);
  }

  /** Reading undoes printing exactly when the type is not the empty string. */
  lemma CellsRoundTrip(r: CsvRecord)
    requires Plain(r)
    ensures ReadCells(AsCsvRecord(r)) == Some(r) <==> r.txType != Some("")
  {
    CellsRead(r);
  }

  lemma CellsArePlain(r: CsvRecord)
    requires Plain(r)
    ensures forall c :: c in AsCsvRecord(r) ==> PlainCell(c)
  {
    NumberIsPlain(r.transactionId);
    NumberIsPlain(r.sentSlot);
    NumberIsPlain(r.receivedSlot);
    NumberIsPlain(r.sentTimestamp);
    NumberIsPlain(r.receivedTimestamp);
    NumberIsPlain(r.receivedSubscrTimestamp);
    NumberIsPlain(r.indexInBlock);
    StatusesRoundTrip(r.txStatus);
    NumberIsPlain(r.tick);
    NumberIsPlain(r.numTransactionInBlock);
  }

  ghost predicate PlainRow(row: seq<string>) {
    row != [] && forall c :: c in row ==> PlainCell(c)
  }

  /** A file of plain cells reads back row by row. */
  lemma {:induction false} FileRoundTrip(rows: seq<seq<string>>)
    requires forall row :: row in rows ==> PlainRow(row)
    ensures ReadFile(FileText(rows)) == rows
  {
    if rows != [] {
      var line := Join(rows[0], ',');
      FileRoundTrip(rows[1..]);
      assert PlainRow(rows[0]);
      JoinFree(rows[0], ',', '\n');
      SplitJoin(rows[0], ',');
      var rest := Split(FileText(rows[1..]), '\n');
      SplitFirst(line, '\n', FileText(rows[1..]));
      assert ([line] + rest)[..|rest|] == [line] + rest[..|rest| - 1];
    }
  }

  ghost predicate Readable(r: CsvRecord) {
    Plain(r) && r.txType != Some("")
  }

  function RowsOf(records: seq<CsvRecord>): seq<seq<string>> {
    seq(|records|, i requires 0 <= i < |records| => AsCsvRecord(records[i]))
  }

  /** Writing the header and the records, then reading the file, recovers every record in order. */
  lemma RecordsRoundTrip(records: seq<CsvRecord>)
    requires forall r :: r in records ==> Readable(r)
    ensures var rows := ReadFile(FileText([FieldNames()] + RowsOf(records)));
            && |rows| == |records| + 1 && rows[0] == FieldNames()
            && forall i :: 0 <= i < |records| ==> ReadCells(rows[i + 1]) == Some(records[i])
  {
    HeaderIsPlain();
    HeadedRecordsRoundTrip(FieldNames(), records);
  }

  lemma HeadedRecordsRoundTrip(header: seq<string>, records: seq<CsvRecord>)
    requires PlainRow(header) && forall r :: r in records ==> Readable(r)
    ensures var rows := ReadFile(FileText([header] + RowsOf(records)));
            && |rows| == |records| + 1 && rows[0] == header
            && forall i :: 0 <= i < |records| ==> ReadCells(rows[i + 1]) == Some(records[i])
  {
    var rows := [header] + RowsOf(records);
    forall row | row in rows ensures PlainRow(row) {
      if row != header {
        var i :| 0 <= i < |records| && RowsOf(records)[i] == row;
        RecordIsPlain(records[i]);
      }
    }
    FileRoundTrip(rows);
    forall i | 0 <= i < |records| ensures ReadCells(rows[i + 1]) == Some(records[i]) {
      assert records[i] in records;
      RecordIsPlain(records[i]);
    }
  }

  lemma RecordIsPlain(r: CsvRecord)
    requires Readable(r)
    ensures PlainRow(AsCsvRecord(r)) && ReadCells(AsCsvRecord(r)) == Some(r)
  {
    CellsArePlain(r);
    CellsRoundTrip(r);
  }

  lemma HeaderIsPlain()
    ensures PlainRow(FieldNames())
  {
    PlainNames1();
    PlainNames2();
    PlainNames3();
  }

  lemma PlainNames1()
    ensures PlainCell("signature") && PlainCell("transaction_id") && PlainCell("sent_slot")
         && PlainCell("received_slot") && PlainCell("sent_timestamp") && PlainCell("received_timestamp")
  {}

  lemma PlainNames2()
    ensures PlainCell("received_subscr_timestamp") && PlainCell("index_in_block") && PlainCell("tx_status")
  {}

  lemma PlainNames3()
    ensures PlainCell("tick") && PlainCell("tx_type") && PlainCell("num_transaction_in_block")
  {}

  /** The header names the cells of a row: here are the twelve columns with the field each one prints. */
  lemma HeaderNamesColumns(r: CsvRecord)
    ensures var names, row := FieldNames(), AsCsvRecord(r);
            && (names[0], row[0]) == ("signature", r.signature)
            && (names[1], row[1]) == ("transaction_id", PrintNumber(r.transactionId))
            && (names[2], row[2]) == ("sent_slot", PrintNumber(r.sentSlot))
            && (names[3], row[3]) == ("received_slot", PrintNumber(r.receivedSlot))
            && (names[4], row[4]) == ("sent_timestamp", PrintNumber(r.sentTimestamp))
            && (names[5], row[5]) == ("received_timestamp", PrintNumber(r.receivedTimestamp))
            && (names[6], row[6]) == ("received_subscr_timestamp", PrintNumber(r.receivedSubscrTimestamp))
            && (names[7], row[7]) == ("index_in_block", PrintNumber(r.indexInBlock))
            && (names[8], row[8]) == ("tx_status", PrintStatuses(r.txStatus))
            && (names[9], row[9]) == ("tick", PrintNumber(r.tick))
            && (names[10], row[10]) == ("tx_type", if r.txType.Some? then r.txType.value else "")
            && (names[11], row[11]) == ("num_transaction_in_block", PrintNumber(r.numTransactionInBlock))
  {}

  /** Two rows of cells as they stand in the file. */
  lemma TwoRows(a: string, b: string, c: string)
    ensures FileText([[a, b], [c]]) == a + "," + b + "\n" + c + "\n"
  {
    JoinTwo(a, b, ',');
    assert [[a, b], [c]][1..] == [[c]] && [[c]][1..] == [];
    assert FileText([[c]]) == c + "\n" + [];
  }

  /** How a status and its address print, for each status. */
  lemma StatusForms()
    ensures PrintStatus((Sent, "a:1")) == "Sent(a:1)" && PrintStatus((FullChannel, "b:2")) == "FullChannel(b:2)"
    ensures PrintStatus((ReceiverDropped, "c:3")) == "ReceiverDropped(c:3)"
    ensures PrintStatus((Other, "d:4")) == "Other(d:4)"
  {}

  lemma JoinTwo(a: string, b: string, c: char)
    ensures Join([a, b], c) == a + [c] + b
  {
    assert [a, b][1..] == [b];
  }

  /** Two statuses print with a bar between them. */
  lemma TwoStatuses(s: (SendStatus, string), t: (SendStatus, string))
    ensures PrintStatuses([s, t]) == PrintStatus(s) + "|" + PrintStatus(t)
  {
    assert Printed([s, t]) == [PrintStatus(s), PrintStatus(t)];
    JoinTwo(PrintStatus(s), PrintStatus(t), '|');
  }
}
