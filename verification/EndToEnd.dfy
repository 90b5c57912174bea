/** From the record a client builds, through the chain, to the line of the file. */
module EndToEnd {
  import opened Wrappers
  import opened Text
  import opened CsvRecords
  import opened Expiry
  import opened CsvProtocol
  import opened SlotRows
  import opened ClientRecords

  /** What the log of a transaction looks like that carries the `k`-th memo of this client. */
  ghost predicate LogsMemo(logs: seq<string>, k: nat, sentSlot: nat, sentAt: nat) {
    exists before, after ::
      && logs == before + [Memo.MemoLogLine(Memo.MemoText(IdOf(k), sentSlot, sentAt))] + after
      && forall l :: l in before ==> !Memo.IsMemoLine(l)
  }

  /** The record the subscriber makes of such a transaction, with its tick and the size of its block. */
  function Received(info: TxInfo, tx: Tx, sent: CsvRecord, slot: nat, tick: nat, executed: nat): CsvRecord {
    CsvRecord(info.signature, sent.transactionId, sent.sentSlot, Some(slot), sent.sentTimestamp, tx.receivedTimestamp,
              tx.receivedSubscrTimestamp, Some(info.index), sent.txStatus, Some(tick), Some(info.kind), Some(executed))
  }

  /**
   A transaction of this client that comes back in a block while its record is pending: the matcher takes it for
   that record, and its line reads back with what the client knew (id, slot, time, statuses) and what the block
   says (signature, slot, times, index, tick, type, size of the block).
   */
  lemma SentTransactionComesBack(k: nat, signature: string, sentSlot: nat, sentAt: nat,
                                 statuses: seq<(SendStatus, string)>,
                                 tx: Tx, slot: nat, tick: nat, executed: nat, t: Table)
    requires sentSlot <= U64_MAX && sentAt <= U64_MAX
    requires Builds(tx) && LogsMemo(tx.info.value.logs.value, k, sentSlot, sentAt)
    requires IdOf(k) in t && t[IdOf(k)] == RecordOf(k, signature, sentSlot, sentAt).(txStatus := statuses)
    requires Readable(Received(tx.info.value, tx, t[IdOf(k)], slot, tick, executed))
    ensures var built := BuildRecord(tx, slot).value.(tick := Some(tick), numTransactionInBlock := Some(executed));
            var row := MatchRow(built, t);
            && row.origin == Matched(IdOf(k)) && MatchKeys(built) == {IdOf(k)}
            && ReadCells(row.cells) == Some(Received(tx.info.value, tx, t[IdOf(k)], slot, tick, executed))
  {
    var logs := tx.info.value.logs.value;
    var before, after :|
      && logs == before + [Memo.MemoLogLine(Memo.MemoText(IdOf(k), sentSlot, sentAt))] + after
      && forall l :: l in before ==> !Memo.IsMemoLine(l);
    OwnTransactionIsRecognised(tx, slot, IdOf(k), sentSlot, sentAt, before, after);
    CellsRoundTrip(Received(tx.info.value, tx, t[IdOf(k)], slot, tick, executed));
  }
}
