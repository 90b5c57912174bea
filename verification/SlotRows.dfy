/** What one slot's recording turns into: sorted transactions, each with the tick of its index. */
module SlotRows {
  import opened Wrappers
  import opened CsvRecords
  import opened Listing
  import opened StableSort
  import opened Ticks
  import opened Text
  import Memo

  /** The part of a transaction update that is there when the update carries a transaction. */
  datatype TxInfo = TxInfo(index: nat, signature: string, kind: string, logs: Option<seq<string>>)

  datatype Tx = Tx(info: Option<TxInfo>, receivedTimestamp: Option<nat>, receivedSubscrTimestamp: Option<nat>)

  datatype Recording = Recording(slot: nat, txs: seq<Tx>, entries: seq<Entry>)

  /** Rows sent for a recording, and whether the task died on an index beyond the attributed ticks. */
  datatype Emission = Emission(rows: seq<CsvRecord>, panicked: bool)

  function TxKey(tx: Tx): nat {
    if tx.info.Some? then tx.info.value.index else 0
  }

  function EntryKey(e: Entry): nat {
    e.index
  }

  /** An update yields a row only if it carries both a transaction and its metadata. */
  predicate Builds(tx: Tx) {
    tx.info.Some? && tx.info.value.logs.Some?
  }

  /** `try_build_csv_record_with_classification`, the classification itself being given. */
  function BuildRecord(tx: Tx, slot: nat): Option<CsvRecord> {
    if !Builds(tx) then None
    else
      var info := tx.info.value;
      var own := match Memo.ExtractMemoLine(info.logs.value)
                 case Some(line) => Memo.ParseMemoLog(line)
                 case None => None;
      var id := if own.Some? then Some(own.value.0) else None;
      var sentSlot := if own.Some? then Some(own.value.1) else None;
      var sentTimestamp := if own.Some? then Some(own.value.2) else None;
      Some(CsvRecord(info.signature, id, sentSlot, Some(slot), sentTimestamp, tx.receivedTimestamp,
                     tx.receivedSubscrTimestamp, Some(info.index), [], None, Some(info.kind), None))
  }

  /** The row of a transaction whose index has a tick. */
  function RowOf(tx: Tx, slot: nat, ticks: seq<nat>, executed: nat): CsvRecord
    requires Builds(tx) && TxKey(tx) < |ticks|
  {
    BuildRecord(tx, slot).value.(tick := Some(ticks[TxKey(tx)]), numTransactionInBlock := Some(executed))
  }

  /** The loop of the spawned task, front to back, ended early by an index without a tick. */
  function RowsFrom(txs: seq<Tx>, slot: nat, ticks: seq<nat>, executed: nat): Emission {
    if txs == [] then Emission([], false)
    else if !Builds(txs[0]) then RowsFrom(txs[1..], slot, ticks, executed)
    else if TxKey(txs[0]) >= |ticks| then Emission([], true)
    else
      var rest := RowsFrom(txs[1..], slot, ticks, executed);
      Emission([RowOf(txs[0], slot, ticks, executed)] + rest.rows, rest.panicked)
  }

  /** What the task spawned for a closed slot sends. */
  function Emit(rec: Recording, executed: nat): Emission {
    RowsFrom(SortByKey(rec.txs, TxKey), rec.slot, Attribute(SortByKey(rec.entries, EntryKey)), executed)
  }

  // ----- what is sent

  /** The rows of the transactions that can be built and have a tick. */
  function InRangeRows(txs: seq<Tx>, slot: nat, ticks: seq<nat>, executed: nat): seq<CsvRecord> {
    if txs == [] then []
    else
      (if Builds(txs[0]) && TxKey(txs[0]) < |ticks| then [RowOf(txs[0], slot, ticks, executed)] else [])
      + InRangeRows(txs[1..], slot, ticks, executed)
  }

  ghost predicate AllInRange(txs: seq<Tx>, bound: nat) {
    forall tx :: tx in txs && Builds(tx) ==> TxKey(tx) < bound
  }

  lemma {:induction false} NothingInRange(txs: seq<Tx>, slot: nat, ticks: seq<nat>, executed: nat)
    requires forall i :: 0 <= i < |txs| ==> TxKey(txs[i]) >= |ticks|
    ensures InRangeRows(txs, slot, ticks, executed) == []
  {
    if txs != [] {
      NothingInRange(txs[1..], slot, ticks, executed);
    }
  }

  /** On sorted transactions the early end loses no row that has a tick. */
  lemma {:induction false} RowsAreInRange(txs: seq<Tx>, slot: nat, ticks: seq<nat>, executed: nat)
    requires Sorted(txs, TxKey)
    ensures RowsFrom(txs, slot, ticks, executed).rows == InRangeRows(txs, slot, ticks, executed)
  {
    if txs != [] {
      if Builds(txs[0]) && TxKey(txs[0]) >= |ticks| {
        NothingInRange(txs, slot, ticks, executed);
      } else {
        RowsAreInRange(txs[1..], slot, ticks, executed);
      }
    }
  }

  lemma {:induction false} PanicsBeyondTicks(txs: seq<Tx>, slot: nat, ticks: seq<nat>, executed: nat)
    ensures RowsFrom(txs, slot, ticks, executed).panicked <==> !AllInRange(txs, |ticks|)
  {
    if txs != [] {
      PanicsBeyondTicks(txs[1..], slot, ticks, executed);
      assert txs == [txs[0]] + txs[1..];
    }
  }

  ghost predicate RowsOrdered(rows: seq<CsvRecord>, ticks: seq<nat>) {
    && (forall i :: 0 <= i < |rows| ==>
          && rows[i].indexInBlock.Some? && rows[i].indexInBlock.value < |ticks|
          && rows[i].tick == Some(ticks[rows[i].indexInBlock.value]))
    && (forall i, j :: 0 <= i < j < |rows| ==> rows[i].indexInBlock.value <= rows[j].indexInBlock.value)
  }

  lemma {:induction false} RowsFollowIndex(txs: seq<Tx>, slot: nat, ticks: seq<nat>, executed: nat)
    requires Sorted(txs, TxKey)
    ensures RowsOrdered(InRangeRows(txs, slot, ticks, executed), ticks)
    ensures forall r :: r in InRangeRows(txs, slot, ticks, executed) ==>
              exists tx :: tx in txs && Builds(tx) && TxKey(tx) < |ticks| && r == RowOf(tx, slot, ticks, executed)
  {
    if txs != [] {
      RowsFollowIndex(txs[1..], slot, ticks, executed);
      var rest := InRangeRows(txs[1..], slot, ticks, executed);
      forall i | 0 <= i < |rest| ensures TxKey(txs[0]) <= rest[i].indexInBlock.value {
        assert rest[i] in rest;
        var tx :| tx in txs[1..] && Builds(tx) && TxKey(tx) < |ticks| && rest[i] == RowOf(tx, slot, ticks, executed);
        var j :| 0 <= j < |txs[1..]| && txs[1..][j] == tx;
        assert txs[j + 1] == tx;
      }
    }
  }

  lemma {:induction false} InsertKeepsTotals(es: seq<Entry>, e: Entry)
    ensures TotalTxs(InsertByKey(es, e, EntryKey)) == TotalTxs(es) + e.executed
    ensures ZeroEntries(InsertByKey(es, e, EntryKey)) == ZeroEntries(es) + if e.executed == 0 then 1 else 0
  {
    var r := InsertByKey(es, e, EntryKey);
    if es == [] || EntryKey(es[|es| - 1]) <= EntryKey(e) {
      assert (es + [e])[..|es|] == es;
    } else {
      InsertKeepsTotals(es[..|es| - 1], e);
      assert r[..|r| - 1] == InsertByKey(es[..|es| - 1], e, EntryKey);
    }
  }

  lemma {:induction false} SortKeepsTotals(es: seq<Entry>)
    ensures TotalTxs(SortByKey(es, EntryKey)) == TotalTxs(es)
    ensures ZeroEntries(SortByKey(es, EntryKey)) == ZeroEntries(es)
  {
    if es != [] {
      SortKeepsTotals(es[..|es| - 1]);
      InsertKeepsTotals(SortByKey(es[..|es| - 1], EntryKey), es[|es| - 1]);
    }
  }

  /**
   What a closed slot sends, however its updates arrived: exactly the rows of the transactions whose index
   lies below the number of transactions the entries account for, in index order, each with the tick of its
   index, ticks nondecreasing and at most the number of tick entries. The task survives if and only if no
   complete transaction has a larger index.
   */
  lemma EmissionMeaning(rec: Recording, executed: nat)
    ensures var txs := SortByKey(rec.txs, TxKey);
            var ticks := Attribute(SortByKey(rec.entries, EntryKey));
            var e := Emit(rec, executed);
            && |ticks| == TotalTxs(rec.entries)
            && e.rows == InRangeRows(txs, rec.slot, ticks, executed)
            && RowsOrdered(e.rows, ticks)
            && (forall i, j :: 0 <= i <= j < |e.rows| ==>
                  e.rows[i].tick.value <= e.rows[j].tick.value <= ZeroEntries(rec.entries))
            && (!e.panicked <==> AllInRange(rec.txs, TotalTxs(rec.entries)))
  {
    var txs := SortByKey(rec.txs, TxKey);
    var entries := SortByKey(rec.entries, EntryKey);
    var ticks := Attribute(entries);
    TicksAreMonotone(entries);
    SortKeepsTotals(rec.entries);
    SortSorts(rec.txs, TxKey);
    SortPermutes(rec.txs, TxKey);
    SameMembers(txs, rec.txs);
    RowsAreInRange(txs, rec.slot, ticks, executed);
    RowsFollowIndex(txs, rec.slot, ticks, executed);
    RowTicksAreMonotone(Emit(rec, executed).rows, ticks, ZeroEntries(rec.entries));
    PanicsBeyondTicks(txs, rec.slot, ticks, executed);
    assert AllInRange(txs, |ticks|) <==> AllInRange(rec.txs, |ticks|);
  }

  lemma RowTicksAreMonotone(rows: seq<CsvRecord>, ticks: seq<nat>, bound: nat)
    requires RowsOrdered(rows, ticks)
    requires forall i, j :: 0 <= i <= j < |ticks| ==> ticks[i] <= ticks[j] <= bound
    ensures forall i, j :: 0 <= i <= j < |rows| ==> rows[i].tick.value <= rows[j].tick.value <= bound
  {
    forall i, j | 0 <= i <= j < |rows| ensures rows[i].tick.value <= rows[j].tick.value <= bound {
      assert rows[i].indexInBlock.value <= rows[j].indexInBlock.value;
    }
  }

  /** Reordering the arrival of a slot's entries and transactions does not change what is sent. */
  lemma ArrivalOrderIsIrrelevant(a: Recording, b: Recording, executed: nat)
    requires a.slot == b.slot
    requires multiset(a.txs) == multiset(b.txs) && DistinctKeys(a.txs, TxKey)
    requires multiset(a.entries) == multiset(b.entries) && DistinctKeys(a.entries, EntryKey)
    ensures Emit(a, executed) == Emit(b, executed)
  {
    SortForgetsOrder(a.txs, b.txs, TxKey);
    SortForgetsOrder(a.entries, b.entries, EntryKey);
  }

  /** A transaction carrying a memo of this client comes back with the id, slot and time the client printed. */
  lemma OwnTransactionIsRecognised(tx: Tx, slot: nat, id: nat, sentSlot: nat, sentAt: nat,
                                   before: seq<string>, after: seq<string>)
    requires Builds(tx) && id <= U64_MAX && sentSlot <= U64_MAX && sentAt <= U64_MAX
    requires forall l :: l in before ==> !Memo.IsMemoLine(l)
    requires tx.info.value.logs.value == before + [Memo.MemoLogLine(Memo.MemoText(id, sentSlot, sentAt))] + after
    ensures var r := BuildRecord(tx, slot).value;
            r.transactionId == Some(id) && r.sentSlot == Some(sentSlot) && r.sentTimestamp == Some(sentAt)
  {
    Memo.MemoRoundTrip(id, sentSlot, sentAt, before, after);
  }


  // ----- what a row says

  /**
   What a transaction's record says. Every column but three comes from the update; the three are those of the
   first memo line of its log, and are absent together when there is none or it is not a memo of this client.
   */
  lemma BuiltRecord(tx: Tx, slot: nat)
    requires Builds(tx)
    ensures BuildRecord(tx, slot).Some?
    ensures var info, r := tx.info.value, BuildRecord(tx, slot).value;
            && r.signature == info.signature && r.indexInBlock == Some(info.index) && r.txType == Some(info.kind)
            && r.receivedSlot == Some(slot) && r.receivedTimestamp == tx.receivedTimestamp
            && r.receivedSubscrTimestamp == tx.receivedSubscrTimestamp
            && r.txStatus == [] && r.tick == None && r.numTransactionInBlock == None
    ensures var logs, r := tx.info.value.logs.value, BuildRecord(tx, slot).value;
            && (forall i: nat, id, sentSlot, sentAt ::
                  Memo.IsFirstMemo(logs, i) && Memo.ParseMemoLog(logs[i]) == Some((id, sentSlot, sentAt)) ==>
                    (r.transactionId, r.sentSlot, r.sentTimestamp) == (Some(id), Some(sentSlot), Some(sentAt)))
            && ((forall i: nat :: Memo.IsFirstMemo(logs, i) ==> Memo.ParseMemoLog(logs[i]) == None) ==>
                  (r.transactionId, r.sentSlot, r.sentTimestamp) == (None, None, None))
  {
    Memo.ExtractMeaning(tx.info.value.logs.value);
  }

  /** The positions of the transactions that yield a row. */
  function RowPositions(txs: seq<Tx>, bound: nat): set<nat> {
    set i: nat | i < |txs| && Builds(txs[i]) && TxKey(txs[i]) < bound
  }

  ghost function RowsAt(ks: seq<nat>, txs: seq<Tx>, slot: nat, ticks: seq<nat>, executed: nat): seq<CsvRecord>
    requires forall k :: k in ks ==> k < |txs| && Builds(txs[k]) && TxKey(txs[k]) < |ticks|
  {
    seq(|ks|, k requires 0 <= k < |ks| => assert ks[k] in ks; RowOf(txs[ks[k]], slot, ticks, executed))
  }

  lemma {:induction false} InRangeSnoc(txs: seq<Tx>, x: Tx, slot: nat, ticks: seq<nat>, executed: nat)
    ensures InRangeRows(txs + [x], slot, ticks, executed) ==
            InRangeRows(txs, slot, ticks, executed)
            + if Builds(x) && TxKey(x) < |ticks| then [RowOf(x, slot, ticks, executed)] else []
  {
    if txs == [] {
      assert ([] + [x])[1..] == [];
    } else {
      assert (txs + [x])[1..] == txs[1..] + [x];
      InRangeSnoc(txs[1..], x, slot, ticks, executed);
    }
  }

  lemma RowsAtSnoc(ks: seq<nat>, txs: seq<Tx>, x: Tx, slot: nat, ticks: seq<nat>, executed: nat)
    requires forall k :: k in ks ==> k < |txs| && Builds(txs[k]) && TxKey(txs[k]) < |ticks|
    ensures RowsAt(ks, txs + [x], slot, ticks, executed) == RowsAt(ks, txs, slot, ticks, executed)
    ensures Builds(x) && TxKey(x) < |ticks| ==>
              RowsAt(ks + [|txs|], txs + [x], slot, ticks, executed)
              == RowsAt(ks, txs, slot, ticks, executed) + [RowOf(x, slot, ticks, executed)]
  {
    assert forall k :: k in ks ==> (txs + [x])[k] == txs[k];
  }

  /** One row for every complete transaction whose index has a tick, in order, and no other. */
  lemma {:induction false} RowsAreAll(txs: seq<Tx>, slot: nat, ticks: seq<nat>, executed: nat)
    ensures InRangeRows(txs, slot, ticks, executed)
            == RowsAt(InOrder(RowPositions(txs, |ticks|)), txs, slot, ticks, executed)
  {
    if txs == [] {
      assert RowPositions(txs, |ticks|) == {};
    } else {
      var n := |txs| - 1;
      var before, x := txs[..n], txs[n];
      assert txs == before + [x];
      RowsAreAll(before, slot, ticks, executed);
      InRangeSnoc(before, x, slot, ticks, executed);
      var old', all := RowPositions(before, |ticks|), RowPositions(txs, |ticks|);
      RowsAtSnoc(InOrder(old'), before, x, slot, ticks, executed);
      if Builds(x) && TxKey(x) < |ticks| {
        InOrderSnoc(old', n, all);
      } else {
        assert all == old';
      }
    }
  }

  /**
   The rows of a closed slot, one by one: sorted by index, every complete transaction within the ticks yields
   its record with the tick of its index and the number of transactions executed in the block.
   */
  lemma EmittedRows(rec: Recording, executed: nat, k: nat)
    requires k < |Emit(rec, executed).rows|
    ensures var txs := SortByKey(rec.txs, TxKey);
            var ks := InOrder(RowPositions(txs, TotalTxs(rec.entries)));
            var ticks := Attribute(SortByKey(rec.entries, EntryKey));
            && |Emit(rec, executed).rows| == |ks| && ks[k] < |txs| && Builds(txs[ks[k]]) && TxKey(txs[ks[k]]) < |ticks|
            && Emit(rec, executed).rows[k] == BuildRecord(txs[ks[k]], rec.slot).value.(
                 tick := Some(ticks[TxKey(txs[ks[k]])]), numTransactionInBlock := Some(executed))
  {
    EmissionMeaning(rec, executed);
    var txs, ticks := SortByKey(rec.txs, TxKey), Attribute(SortByKey(rec.entries, EntryKey));
    RowsAreAll(txs, rec.slot, ticks, executed);
    var ks := InOrder(RowPositions(txs, |ticks|));
    assert ks[k] in ks;
  }

  // ----- the recording as it is built

  class SlotRecording {
    const slot: nat
    var txs: seq<Tx>
    var entries: seq<Entry>

    constructor (slot: nat)
      ensures Value() == Recording(slot, [], [])
    {
      this.slot, txs, entries := slot, [], [];
    }

    function Value(): Recording
      reads this
    {
      Recording(slot, txs, entries)
    }

    method AddTransaction(tx: Tx)
      modifies this
      ensures Value() == old(Value()).(txs := old(txs) + [tx])
    {
      txs := txs + [tx];
    }

    method AddEntryUpdate(entry: Entry)
      modifies this
      ensures Value() == old(Value()).(entries := old(entries) + [entry])
    {
      entries := entries + [entry];
    }

    method CollectTicks() returns (ticks: seq<nat>)
      modifies this
      ensures Value() == old(Value()).(entries := SortByKey(old(entries), EntryKey))
      ensures ticks == Attribute(entries)
    {
      entries := SortByKey(entries, EntryKey);
      var attributed := FindTxTicks(entries);
      AttributionIsUnique(entries, attributed[..]);
      ticks := attributed[..];
    }

    method SortTxs()
      modifies this
      ensures Value() == old(Value()).(txs := SortByKey(old(txs), TxKey))
    {
      txs := SortByKey(txs, TxKey);
    }

    /** The task spawned when the slot's block metadata arrives. */
    method EmitRows(executed: nat) returns (rows: seq<CsvRecord>, panicked: bool)
      modifies this
      ensures Emission(rows, panicked) == Emit(old(Value()), executed)
    {
      var ticks := CollectTicks();
      SortTxs();
      rows := [];
      ghost var whole := RowsFrom(txs, slot, ticks, executed);
      for i := 0 to |txs|
        invariant txs == SortByKey(old(txs), TxKey)
        invariant whole == Emission(rows + RowsFrom(txs[i..], slot, ticks, executed).rows,
                                    RowsFrom(txs[i..], slot, ticks, executed).panicked)
      {
        assert txs[i..][1..] == txs[i + 1..];
        var built := BuildRecord(txs[i], slot);
        if built.Some? {
          var index := built.value.indexInBlock.value;
          if index >= |ticks| {
            return rows, true;
          }
          var row := built.value.(tick := Some(ticks[index]), numTransactionInBlock := Some(executed));
          assert rows + ([row] + RowsFrom(txs[i + 1..], slot, ticks, executed).rows)
              == rows + [row] + RowsFrom(txs[i + 1..], slot, ticks, executed).rows;
          rows := rows + [row];
        }
      }
      panicked := false;
    }
  }
}
