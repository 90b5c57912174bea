/** Building one batch of transfer transactions from shared iterators and reused buffers. */
module TransferBatch {
  import opened Wrappers
  import opened PayerStream

  datatype Keypair = Keypair(id: nat)

  datatype Instruction = SetComputeUnitLimit(units: nat) | Transfer(sender: Keypair, receiver: Keypair, lamports: nat)

  datatype Transaction =
    Transaction(instructions: seq<Instruction>, feePayer: Keypair, signers: seq<Keypair>, blockhash: nat)

  /** Element `i` of the payers repeated without end. */
  function Cyc(payers: seq<Keypair>, i: nat): Keypair
    requires payers != []
  {
    payers[i % |payers|]
  }

  /** The builder always makes a first transfer. */
  function TransfersPerTx(n: nat): nat {
    if n == 0 then 1 else n
  }

  // ----- a transaction built from nothing

  /** What a batch is built from: the payers and where to start, the amounts, transfers per transaction. */
  datatype Plan = Plan(payers: seq<Keypair>, index: nat, lamports: seq<nat>, n: nat, units: nat, blockhash: nat)

  /** Transfer `k` of the batch: senders and receivers are taken alternately from the payer cycle. */
  function TransferAt(p: Plan, k: nat): Instruction
    requires p.payers != [] && k < |p.lamports|
  {
    Transfer(Cyc(p.payers, p.index + 2 * k), Cyc(p.payers, p.index + 2 * k + 1), p.lamports[k])
  }

  /** Transfers `first..first + m` of a batch. */
  function Transfers(p: Plan, first: nat, m: nat): (r: seq<Instruction>)
    requires p.payers != [] && first + m <= |p.lamports|
    ensures |r| == m
  {
    seq(m, j requires 0 <= j < m => TransferAt(p, first + j))
  }

  function Signers(p: Plan, first: nat, m: nat): (r: seq<Keypair>)
    requires p.payers != []
    ensures |r| == m
  {
    seq(m, j requires 0 <= j < m => Cyc(p.payers, p.index + 2 * (first + j)))
  }

  function FreshTransaction(p: Plan, first: nat): Transaction
    requires p.payers != [] && first + TransfersPerTx(p.n) <= |p.lamports|
  {
    var m := TransfersPerTx(p.n);
    Transaction([SetComputeUnitLimit(p.units)] + Transfers(p, first, m), Cyc(p.payers, p.index + 2 * first),
                Signers(p, first, m), p.blockhash)
  }

  lemma TransfersSnoc(p: Plan, first: nat, m: nat)
    requires p.payers != [] && first + m < |p.lamports|
    ensures Transfers(p, first, m + 1) == Transfers(p, first, m) + [TransferAt(p, first + m)]
    ensures Signers(p, first, m + 1) == Signers(p, first, m) + [Cyc(p.payers, p.index + 2 * (first + m))]
  {}

  lemma TransfersEmpty(p: Plan, first: nat)
    requires p.payers != [] && first <= |p.lamports|
    ensures Transfers(p, first, 0) == [] && Signers(p, first, 0) == []
  {}

  // ----- iterators and buffers

  /** `payers.iter().cycle().skip(index)`. */
  class PayerCycle {
    const payers: seq<Keypair>
    var position: nat

    constructor (payers: seq<Keypair>, index: nat)
      ensures this.payers == payers && position == index
    {
      this.payers, position := payers, index;
    }

    method Next() returns (payer: Option<Keypair>)
      modifies this
      ensures payer == (if payers == [] then None else Some(Cyc(payers, old(position))))
      ensures position == old(position) + 1
    {
      payer := if payers == [] then None else Some(payers[position % |payers|]);
      position := position + 1;
    }
  }

  class LamportsIterator {
    const lamports: seq<nat>
    var position: nat

    constructor (lamports: seq<nat>)
      ensures this.lamports == lamports && position == 0
    {
      this.lamports, position := lamports, 0;
    }

    method Next() returns (amount: Option<nat>)
      requires position <= |lamports|
      modifies this
      ensures position <= |lamports|
      ensures if old(position) < |lamports|
              then amount == Some(lamports[old(position)]) && position == old(position) + 1
              else amount == None && position == old(position)
    {
      if position < |lamports| {
        amount := Some(lamports[position]);
        position := position + 1;
      } else {
        amount := None;
      }
    }
  }

  class Buffers {
    var instructions: seq<Instruction>
    var signers: seq<Keypair>

    constructor ()
      ensures instructions == [] && signers == []
    {
      instructions, signers := [], [];
    }
  }

  // ----- the builder

  /** Takes a sender, a receiver and an amount from the iterators; `None` is a failed unwrap. */
  method PushTransfer(payer: PayerCycle, amounts: LamportsIterator, buffers: Buffers) returns (sender: Option<Keypair>)
    requires amounts.position <= |amounts.lamports|
    modifies payer, amounts, buffers
    ensures amounts.position <= |amounts.lamports|
    ensures sender.Some? <==> payer.payers != [] && old(amounts.position) < |amounts.lamports|
    ensures sender.Some? ==>
              && sender.value == Cyc(payer.payers, old(payer.position))
              && payer.position == old(payer.position) + 2 && amounts.position == old(amounts.position) + 1
              && buffers.signers == old(buffers.signers) + [sender.value]
              && buffers.instructions == old(buffers.instructions)
                   + [Transfer(sender.value, Cyc(payer.payers, old(payer.position) + 1),
                               amounts.lamports[old(amounts.position)])]
  {
    var from := payer.Next();
    if from == None {
      return None;
    }
    buffers.signers := buffers.signers + [from.value];
    var to := payer.Next();
    var amount := amounts.Next();
    if amount == None {
      return None;
    }
    buffers.instructions := buffers.instructions + [Transfer(from.value, to.value, amount.value)];
    sender := from;
  }

  /**
   `create_serialized_transfers`. The buffers are the caller's: the limit instruction goes in front of what
   they hold and transfers after it, so only empty buffers give the transaction built from nothing.
   */
  method CreateTransfers(payer: PayerCycle, amounts: LamportsIterator, buffers: Buffers, p: Plan)
    returns (tx: Option<Transaction>)
    requires payer.payers == p.payers && amounts.lamports == p.lamports
    requires amounts.position <= |p.lamports| && payer.position == p.index + 2 * amounts.position
    modifies payer, amounts, buffers
    ensures amounts.position <= |p.lamports|
    ensures tx.Some? <==> p.payers != [] && old(amounts.position) + TransfersPerTx(p.n) <= |p.lamports|
    ensures tx.Some? ==>
              && amounts.position == old(amounts.position) + TransfersPerTx(p.n)
              && payer.position == p.index + 2 * amounts.position
    ensures tx.Some? && old(buffers.instructions) == [] && old(buffers.signers) == [] ==>
              tx.value == FreshTransaction(p, old(amounts.position))
  {
    ghost var first := amounts.position;
    buffers.instructions := [SetComputeUnitLimit(p.units)] + buffers.instructions;
    ghost var head, signed := buffers.instructions, buffers.signers;
    var feePayer := PushTransfer(payer, amounts, buffers);
    if feePayer == None {
      return None;
    }
    TransfersEmpty(p, first);
    TransfersSnoc(p, first, 0);
    assert head + [] == head && signed + [] == signed;
    for done := 1 to TransfersPerTx(p.n)
      invariant amounts.position == first + done <= |p.lamports| && payer.position == p.index + 2 * amounts.position
      invariant buffers.instructions == head + Transfers(p, first, done)
      invariant buffers.signers == signed + Signers(p, first, done)
    {
      var sender := PushTransfer(payer, amounts, buffers);
      if sender == None {
        return None;
      }
      TransfersSnoc(p, first, done);
    }
    tx := Some(Transaction(buffers.instructions, feePayer.value, buffers.signers, p.blockhash));
  }

  // ----- the amounts

  ghost predicate Unique(xs: seq<nat>) {
    forall i, j :: 0 <= i < j < |xs| ==> xs[i] != xs[j]
  }

  /** Any choice of `count` different values in `1..=max`. */
  ghost predicate IsSample(xs: seq<nat>, count: nat, max: nat) {
    |xs| == count && Unique(xs) && forall i :: 0 <= i < |xs| ==> 1 <= xs[i] <= max
  }

  function UpTo(max: nat): (s: set<nat>)
    ensures |s| == max && forall x: nat :: x in s <==> 1 <= x <= max
  {
    if max == 0 then {} else UpTo(max - 1) + {max}
  }

  function Values(xs: seq<nat>): set<nat> {
    set x | x in xs
  }

  lemma {:induction false} UniqueSize(xs: seq<nat>)
    requires Unique(xs)
    ensures |Values(xs)| == |xs|
  {
    if xs != [] {
      var before, last := xs[..|xs| - 1], xs[|xs| - 1];
      UniqueSize(before);
      assert xs == before + [last] && last !in before;
      assert Values(xs) == Values(before) + {last};
    }
  }

  lemma Inclusion(a: set<nat>, b: set<nat>)
    requires a <= b
    ensures |a| <= |b|
  {
    assert b == a + (b - a);
  }

  /** The assertion guards exactly the ranges that hold enough different values. */
  lemma SampleExists(count: nat, max: nat)
    ensures (exists xs :: IsSample(xs, count, max)) <==> count <= max
  {
    if count <= max {
      var first := seq(count, i requires 0 <= i < count => i + 1);
      assert IsSample(first, count, max);
    }
    if exists xs :: IsSample(xs, count, max) {
      var xs :| IsSample(xs, count, max);
      UniqueSize(xs);
      Inclusion(Values(xs), UpTo(max));
    }
  }

  /**
   `unique_random_numbers`: its assertion fails when the range is too small; otherwise it fills a reservoir
   with the first values and lets every later value of the range replace an element, or none, as `pick` says.
   */
  method UniqueRandomNumbers(count: nat, max: nat, pick: nat -> nat) returns (r: Option<seq<nat>>)
    ensures r.Some? <==> count <= max
    ensures r.Some? ==> IsSample(r.value, count, max)
  {
    if count > max {
      return None;
    }
    var reservoir: seq<nat> := seq(count, i requires 0 <= i < count => i + 1);
    for value := count + 1 to max + 1
      invariant IsSample(reservoir, count, value - 1)
    {
      var slot := pick(value);
      if slot < count {
        reservoir := reservoir[slot := value];
      }
    }
    r := Some(reservoir);
  }

  // ----- the batch

  lemma MulLess(t: nat, batch: nat, n: nat)
    requires t < batch
    ensures t * n + n <= batch * n
  {
    Distribute(batch, t, n);
    if n > 0 {
      MulSign(batch - t, n);
    }
  }

  /** The plan has a payer, at least one transfer per transaction, and exactly the amounts for `batch` of them. */
  predicate Supplies(p: Plan, batch: nat) {
    p.payers != [] && p.n >= 1 && |p.lamports| == batch * p.n
  }

  function BatchOf(p: Plan, batch: nat): seq<Transaction>
    requires Supplies(p, batch)
  {
    seq(batch, t requires 0 <= t < batch => MulLess(t, batch, p.n); FreshTransaction(p, t * p.n))
  }

  /** Transaction `t` of a batch is the one built from nothing. */
  ghost predicate IsFresh(tx: Transaction, p: Plan, t: nat) {
    && p.payers != [] && p.n >= 1 && t * p.n + p.n <= |p.lamports|
    && tx == FreshTransaction(p, t * p.n)
  }

  lemma FreshBatch(txs: seq<Transaction>, p: Plan, batch: nat)
    requires Supplies(p, batch) && |txs| == batch
    requires forall i :: 0 <= i < batch ==> IsFresh(txs[i], p, i)
    ensures txs == BatchOf(p, batch)
  {}

  /**
   `generate_transfer_transaction_batch`: every transaction equals one built from nothing although the
   buffers are shared. The task survives exactly when there are enough different amounts, a payer, and at
   least one transfer per transaction; the amounts are then used up exactly.
   */
  method GenerateBatch(payers: seq<Keypair>, index: nat, blockhash: nat, max: nat, units: nat, n: nat, batch: nat,
                       pick: nat -> nat)
    returns (txs: Option<seq<Transaction>>, amounts: seq<nat>)
    ensures txs.Some? <==> n * batch <= max && (batch == 0 || (n >= 1 && payers != []))
    ensures txs.Some? ==> |txs.value| == batch && IsSample(amounts, n * batch, max)
    ensures txs.Some? && batch > 0 ==>
              var p := Plan(payers, index, amounts, n, units, blockhash);
              Supplies(p, batch) && txs.value == BatchOf(p, batch)
    ensures txs.Some? ==>
              forall t :: 0 <= t < batch ==> WellShaped(txs.value[t], n, units) && txs.value[t].blockhash == blockhash
  {
    var sample := UniqueRandomNumbers(n * batch, max, pick);
    if sample == None {
      return None, [];
    }
    amounts := sample.value;
    var p := Plan(payers, index, amounts, n, units, blockhash);
    var payer := new PayerCycle(payers, index);
    var lamports := new LamportsIterator(amounts);
    var buffers := new Buffers();
    var built := [];
    for t := 0 to batch
      invariant t > 0 ==> n >= 1 && payers != []
      invariant lamports.position == t * n && payer.position == index + 2 * lamports.position
      invariant buffers.instructions == [] && buffers.signers == []
      invariant |built| == t
      invariant forall i :: 0 <= i < t ==> IsFresh(built[i], p, i)
    {
      MulLess(t, batch, n);
      var tx := CreateTransfers(payer, lamports, buffers, p);
      if tx == None {
        return None, amounts;
      }
      built := built + [tx.value];
      buffers.instructions, buffers.signers := [], [];
    }
    if batch > 0 {
      FreshBatch(built, p, batch);
      forall t: nat | t < batch ensures WellShaped(built[t], n, units) && built[t].blockhash == blockhash {
        TransactionShape(p, batch, t);
      }
    }
    txs := Some(built);
  }

  // ----- what a batch contains

  ghost predicate WellShaped(tx: Transaction, n: nat, units: nat) {
    && |tx.instructions| == n + 1 && tx.instructions[0] == SetComputeUnitLimit(units)
    && |tx.signers| == n && n > 0 && tx.signers[0] == tx.feePayer
    && forall j: nat :: j < n ==> SignedBySender(tx, j)
  }

  /** Transfer `j` of the transaction is signed by its sender. */
  ghost predicate SignedBySender(tx: Transaction, j: nat) {
    && j + 1 < |tx.instructions| && j < |tx.signers|
    && tx.instructions[j + 1].Transfer? && tx.instructions[j + 1].sender == tx.signers[j]
  }

  lemma FreshShape(p: Plan, first: nat)
    requires p.payers != [] && p.n >= 1 && first + p.n <= |p.lamports|
    ensures WellShaped(FreshTransaction(p, first), p.n, p.units)
  {
    var tx := FreshTransaction(p, first);
    var transfers := Transfers(p, first, p.n);
    forall j: nat | j < p.n ensures SignedBySender(tx, j) {
      assert tx.instructions[j + 1] == transfers[j] == TransferAt(p, first + j);
    }
  }

  /** The limit comes first, one signer per transfer, and the fee payer is the first sender. */
  lemma TransactionShape(p: Plan, batch: nat, t: nat)
    requires Supplies(p, batch) && t < batch
    ensures WellShaped(BatchOf(p, batch)[t], p.n, p.units) && BatchOf(p, batch)[t].blockhash == p.blockhash
  {
    MulLess(t, batch, p.n);
    FreshShape(p, t * p.n);
  }

  function TransfersOf(tx: Transaction): seq<Instruction> {
    if tx.instructions == [] then [] else tx.instructions[1..]
  }

  /** The transfers of a batch in order. */
  function Flatten(txs: seq<Transaction>): seq<Instruction> {
    if txs == [] then [] else Flatten(txs[..|txs| - 1]) + TransfersOf(txs[|txs| - 1])
  }

  /** Transaction `i` is built from nothing at `firsts[i]`, and the next one starts where it ends. */
  ghost predicate BuiltFrom(txs: seq<Transaction>, p: Plan, firsts: seq<nat>, i: nat) {
    && i < |txs| && i + 1 < |firsts| && p.payers != [] && p.n >= 1
    && firsts[i + 1] == firsts[i] + p.n <= |p.lamports| && txs[i] == FreshTransaction(p, firsts[i])
  }

  lemma {:induction false} FlattenFresh(txs: seq<Transaction>, p: Plan, firsts: seq<nat>)
    requires p.payers != [] && |firsts| == |txs| + 1 && firsts[0] == 0 && firsts[|txs|] <= |p.lamports|
    requires forall i: nat :: i < |txs| ==> BuiltFrom(txs, p, firsts, i)
    ensures Flatten(txs) == Transfers(p, 0, firsts[|txs|])
  {
    if txs != [] {
      var last := |txs| - 1;
      forall i: nat | i < last ensures BuiltFrom(txs[..last], p, firsts[..|txs|], i) {
        assert BuiltFrom(txs, p, firsts, i);
      }
      assert BuiltFrom(txs, p, firsts, last);
      FlattenFresh(txs[..last], p, firsts[..|txs|]);
      FreshTransfers(p, firsts[last]);
      TransfersAppend(p, firsts[last], p.n);
    }
  }

  lemma FreshTransfers(p: Plan, first: nat)
    requires p.payers != [] && p.n >= 1 && first + p.n <= |p.lamports|
    ensures TransfersOf(FreshTransaction(p, first)) == Transfers(p, first, p.n)
  {}

  lemma TransfersAppend(p: Plan, m: nat, n: nat)
    requires p.payers != [] && m + n <= |p.lamports|
    ensures Transfers(p, 0, m + n) == Transfers(p, 0, m) + Transfers(p, m, n)
  {}

  lemma OneMore(i: nat, n: nat)
    ensures (i + 1) * n == i * n + n
  {
    Distribute(i, 1, n);
  }

  /** A batch is one run of transfers over the payer cycle, each amount used once and in order. */
  lemma BatchIsOneRun(p: Plan, batch: nat)
    requires Supplies(p, batch)
    ensures Flatten(BatchOf(p, batch)) == Transfers(p, 0, batch * p.n)
  {
    var firsts: seq<nat> := seq(batch + 1, i requires 0 <= i <= batch => i * p.n);
    forall i: nat | i < batch ensures BuiltFrom(BatchOf(p, batch), p, firsts, i) {
      OneMore(i, p.n);
      MulLess(i, batch, p.n);
    }
    FlattenFresh(BatchOf(p, batch), p, firsts);
  }

  /** The amounts are used in the order they were drawn. */
  lemma AmountsInOrder(p: Plan, batch: nat, k: nat)
    requires Supplies(p, batch) && k < |p.lamports|
    ensures var all := Flatten(BatchOf(p, batch));
            |all| == |p.lamports| && all[k].Transfer? && all[k].lamports == p.lamports[k]
  {
    BatchIsOneRun(p, batch);
    assert Transfers(p, 0, |p.lamports|)[k] == TransferAt(p, k);
  }

  /** With different amounts no two transfers of a batch are equal. */
  lemma TransfersDiffer(p: Plan, batch: nat, i: nat, j: nat)
    requires Supplies(p, batch) && Unique(p.lamports) && i < j < |p.lamports|
    ensures var all := Flatten(BatchOf(p, batch));
            |all| == |p.lamports| && all[i] != all[j]
  {
    AmountsInOrder(p, batch, i);
    AmountsInOrder(p, batch, j);
  }
}
