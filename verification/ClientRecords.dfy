/** The records a client builds as it sends: consecutive wrapping ids, payers in turn, the memo that carries them. */
module ClientRecords {
  import opened Wrappers
  import opened Text
  import opened CsvRecords
  import opened PayerStream
  import Memo

  const USIZE_MODULUS: nat := 0x1_0000_0000_0000_0000

  /** Id of the `k`-th transaction. */
  function IdOf(k: nat): nat {
    k % USIZE_MODULUS
  }

  lemma NextId(k: nat)
    ensures IdOf(k + 1) == if IdOf(k) + 1 == USIZE_MODULUS then 0 else IdOf(k) + 1
  {}

  /** The record of the `k`-th transaction, before any send status is known. */
  function RecordOf(k: nat, signature: string, slot: nat, now: nat): CsvRecord {
    RecordWithId(IdOf(k), signature, slot, now)
  }

  function RecordWithId(id: nat, signature: string, slot: nat, now: nat): CsvRecord {
    CsvRecord(signature, Some(id), Some(slot), None, Some(now), None, None, None, [], None, Some("TargetTpu"), None)
  }

  /** What one call hands to the scheduler: who pays, the record, and the memo text of the transaction. */
  datatype Built = Built(payer: nat, record: CsvRecord, memo: string)

  class ClientRecords {
    const payers: nat        // number of payers, each named by its index
    var nextPayer: nat
    var txId: nat
    ghost var built: nat

    constructor (payers: nat)
      ensures this.payers == payers && Valid() && built == 0
    {
      this.payers := payers;
      nextPayer, txId, built := 0, 0, 0;
    }

    ghost predicate Valid()
      reads this
    {
      txId == IdOf(built) && nextPayer == built
    }

    /** The closure handed to the scheduler; `None` is the failed unwrap of an empty payer cycle. */
    method Build(signature: string, slot: nat, now: nat) returns (r: Option<Built>)
      requires Valid()
      modifies this
      ensures Valid() && (r.Some? <==> payers > 0)
      ensures r.None? ==> built == old(built)
      ensures r.Some? ==> built == old(built) + 1
                          && r.value == Built(old(built) % payers, RecordOf(old(built), signature, slot, now),
                                              Memo.MemoText(IdOf(old(built)), slot, now))
    {
      if payers == 0 {
        return None;
      }
      var payer := nextPayer % payers;
      nextPayer := nextPayer + 1;
      var id := txId;
      NextId(built);
      txId := if txId + 1 == USIZE_MODULUS then 0 else txId + 1;
      built := built + 1;
      r := Some(Built(payer, RecordWithId(id, signature, slot, now), Memo.MemoText(id, slot, now)));
    }
  }

  /** Any two transactions less than a full cycle apart have different payers. */
  lemma PayersTakeTurns(k: nat, j: nat, payers: nat)
    requires k < j < k + payers
    ensures k % payers != j % payers
  {
    ModDistinct(k, j, payers);
  }

  /** Ids are distinct exactly up to the wrap-around of the counter. */
  lemma IdsAreDistinct(n: nat)
    ensures (forall a: nat, b: nat :: a < b < n ==> IdOf(a) != IdOf(b)) <==> n <= USIZE_MODULUS
  {
    if n > USIZE_MODULUS {
      assert IdOf(0) == IdOf(USIZE_MODULUS);
    }
  }

  /** The block row of a transaction recovers the id, slot and time of the record the client built for it. */
  lemma MemoMatchesRecord(k: nat, signature: string, slot: nat, now: nat)
    requires slot <= U64_MAX && now <= U64_MAX
    ensures var r := RecordOf(k, signature, slot, now);
            Memo.ParseMemoLog(Memo.MemoLogLine(Memo.MemoText(IdOf(k), slot, now)))
            == Some((r.transactionId.value, r.sentSlot.value, r.sentTimestamp.value))
  {
    Memo.MemoRoundTrip(IdOf(k), slot, now, [], []);
  }

  /** What the client builds, with whatever statuses its sends add, can be read back from the file. */
  lemma BuiltIsReadable(k: nat, signature: string, slot: nat, now: nat, statuses: seq<(SendStatus, string)>)
    requires PlainCell(signature) && slot <= U64_MAX && now <= U64_MAX
    requires forall i :: 0 <= i < |statuses| ==> PlainAddress(statuses[i].1)
    ensures Readable(RecordOf(k, signature, slot, now).(txStatus := statuses))
  {
    var kind := "TargetTpu";
    assert kind != "" && PlainCell(kind);
  }

  /** The line of such a record, if it expires or is dumped: nothing yet stands where a block would have its say. */
  lemma BuiltRow(k: nat, signature: string, slot: nat, now: nat, statuses: seq<(SendStatus, string)>)
    ensures AsCsvRecord(RecordOf(k, signature, slot, now).(txStatus := statuses)) ==
            [ signature, Decimal(k % 0x1_0000_0000_0000_0000), Decimal(slot), "", Decimal(now), "", "", "",
              PrintStatuses(statuses), "", "TargetTpu", "" ]
  {}
}
