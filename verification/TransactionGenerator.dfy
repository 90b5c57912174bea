/** The generator task: a pool of batch workers, each started from the payer index saved when it is spawned. */
module TransactionGenerator {
  import opened PayerStream
  import opened TransferBatch

  const COMPUTE_BUDGET_INSTRUCTION_CU_COST: nat := 150
  const SIMPLE_TRANSFER_INSTRUCTION_CU_COST: nat := 150

  datatype Params = Params(n: nat, batch: nat, units: nat, poolSize: nat)

  /** One turn of the main loop as the environment decides it. */
  datatype Turn = Turn(elapsed: bool, receiverGone: bool, blockhash: nat, done: nat)

  /** A spawned worker: the payer index and the blockhash it was given. */
  datatype Job = Job(index: nat, blockhash: nat)

  /** `Panicked` is the remainder by the number of payers when there are none. */
  datatype Outcome = Stopped | ReceiverDropped | InsufficientCuBudget | Panicked | Running

  function MinCuBudget(n: nat): nat {
    COMPUTE_BUDGET_INSTRUCTION_CU_COST + SIMPLE_TRANSFER_INSTRUCTION_CU_COST * n
  }

  function Advance(p: Params): nat {
    2 * p.n * p.batch
  }

  /** Worker `b` was given the index saved after `b` batches. */
  ghost predicate StartsAt(jobs: seq<Job>, b: nat, advance: nat, l: nat) {
    l > 0 && b < |jobs| && jobs[b].index == SavedIndex(b, advance, l)
  }

  ghost predicate StartFromSaved(jobs: seq<Job>, advance: nat, l: nat) {
    forall b: nat :: b < |jobs| ==> StartsAt(jobs, b, advance, l)
  }

  lemma OneMoreStart(jobs: seq<Job>, job: Job, advance: nat, l: nat)
    requires StartFromSaved(jobs, advance, l) && l > 0 && job.index == SavedIndex(|jobs|, advance, l)
    ensures StartFromSaved(jobs + [job], advance, l)
  {
    forall b: nat | b < |jobs + [job]| ensures StartsAt(jobs + [job], b, advance, l) {
      assert b < |jobs| ==> StartsAt(jobs, b, advance, l);
    }
  }

  class TransactionGenerator {
    const payers: seq<Keypair>
    const params: Params
    var indexPayer: nat
    var jobs: seq<Job>       // every worker spawned so far
    var futures: seq<nat>    // workers not joined yet, by number
    var joined: seq<nat>     // workers joined, in order

    constructor (payers: seq<Keypair>, params: Params)
      ensures this.payers == payers && this.params == params && Valid() && jobs == []
    {
      this.payers, this.params := payers, params;
      indexPayer, jobs, futures, joined := 0, [], [], [];
    }

    /**
     Batch `b` starts from the index saved after `b` batches; every worker is either in the pool or joined,
     once; the pool is never larger than configured.
     */
    ghost predicate Valid()
      reads this
    {
      && (payers == [] ==> jobs == [])
      && (payers != [] ==> indexPayer == SavedIndex(|jobs|, Advance(params), |payers|))
      && StartFromSaved(jobs, Advance(params), |payers|)
      && |futures| <= params.poolSize
      && multiset(futures) + multiset(joined) == multiset(Numbers(|jobs|))
    }

    lemma NothingSpawned()
      requires Valid() && jobs == []
      ensures futures == [] && joined == []
    {
      AccountedFor();
    }

    lemma AccountedFor()
      requires Valid()
      ensures |futures| + |joined| == |jobs|
    {
      assert |multiset(futures) + multiset(joined)| == |futures| + |joined|;
      assert |multiset(Numbers(|jobs|))| == |jobs|;
    }

    /** Fills the pool; it fails exactly when there is room for a worker and no payer to advance over. */
    method Spawn(blockhash: nat) returns (ok: bool)
      requires Valid()
      modifies this`indexPayer, this`jobs, this`futures
      ensures Valid() && old(jobs) <= jobs
      ensures ok <==> payers != [] || params.poolSize == 0
      ensures ok ==> |futures| == params.poolSize && |jobs| == |old(jobs)| + params.poolSize - |old(futures)|
      ensures !ok ==> jobs == old(jobs) && futures == old(futures)
      ensures forall b: nat :: |old(jobs)| <= b < |jobs| ==> jobs[b].blockhash == blockhash
    {
      if payers == [] {
        NothingSpawned();
      }
      while |futures| < params.poolSize
        invariant Valid() && old(jobs) <= jobs
        invariant payers == [] ==> futures == old(futures) == [] && jobs == old(jobs)
        invariant |jobs| - |futures| == |old(jobs)| - |old(futures)|
        invariant forall b: nat :: |old(jobs)| <= b < |jobs| ==> jobs[b].blockhash == blockhash
        decreases params.poolSize - |futures|
      {
        if payers == [] {
          return false;
        }
        assert Numbers(|jobs| + 1) == Numbers(|jobs|) + [|jobs|];
        OneMoreStart(jobs, Job(indexPayer, blockhash), Advance(params), |payers|);
        futures := futures + [|jobs|];
        jobs := jobs + [Job(indexPayer, blockhash)];
        indexPayer := SaturatingAdd(indexPayer, Advance(params)) % |payers|;
      }
      ok := true;
    }

    /** `join_next`: some worker of the pool finishes; an empty pool yields nothing. */
    method JoinNext(which: nat)
      requires Valid()
      modifies this`futures, this`joined
      ensures Valid()
      ensures old(futures) == [] ==> futures == [] && joined == old(joined)
      ensures old(futures) != [] ==>
                var i := which % |old(futures)|;
                && futures == old(futures)[..i] + old(futures)[i + 1..]
                && joined == old(joined) + [old(futures)[i]]
    {
      if futures != [] {
        var i := which % |futures|;
        assert futures == futures[..i] + [futures[i]] + futures[i + 1..];
        joined := joined + [futures[i]];
        futures := futures[..i] + futures[i + 1..];
      }
    }

    /** Joins until the pool is empty. */
    method JoinAll(which: nat)
      requires Valid()
      modifies this`futures, this`joined
      ensures Valid() && futures == [] && |joined| == |jobs|
    {
      while futures != []
        invariant Valid()
        decreases |futures|
      {
        JoinNext(which);
      }
      AccountedFor();
    }

    /** No payer to advance over, though the pool wants workers. */
    predicate Blocked() {
      payers == [] && params.poolSize > 0
    }

    /**
     `run`, for as many turns as are given; `completed` of them pass. The outcome is the one the turns call
     for. In every turn the pool is filled with workers that get the blockhash of that turn, and one worker is
     joined; a normal stop joins all the others.
     */
    method Run(turns: seq<Turn>) returns (outcome: Outcome, completed: nat)
      requires Valid() && jobs == []
      modifies this
      ensures Valid()
      ensures outcome == OutcomeOf(params, Blocked(), turns) && completed == CompletedOf(params, Blocked(), turns)
      ensures |jobs| == if params.poolSize == 0 || completed == 0 then 0 else params.poolSize + completed - 1
      ensures |joined| == if outcome == Stopped then |jobs| else if params.poolSize == 0 then 0 else completed
      ensures GivenInTurn(jobs, params.poolSize, turns)
    {
      NothingSpawned();
      completed := 0;
      if params.units < MinCuBudget(params.n) {
        return InsufficientCuBudget, 0;
      }
      while completed < |turns|
        invariant Valid() && completed <= FirstEnd(turns)
        invariant completed > 0 ==> !Blocked()
        invariant |jobs| == Spawned(params.poolSize, completed)
        invariant |joined| == Joined(params.poolSize, completed)
        invariant GivenInTurn(jobs, params.poolSize, turns)
      {
        AccountedFor();
        EndsHere(turns, completed);
        if turns[completed].elapsed {
          JoinAll(turns[completed].done);
          return Stopped, completed;
        }
        if turns[completed].receiverGone {
          return ReceiverDropped, completed;
        }
        ghost var before := jobs;
        var ok := Spawn(turns[completed].blockhash);
        if !ok {
          return Panicked, completed;
        }
        GivenGrows(before, jobs, params.poolSize, turns, completed);
        JoinNext(turns[completed].done);
        completed := completed + 1;
      }
      outcome := Running;
    }
  }

  // ----- what the turns call for

  predicate Ends(turn: Turn) {
    turn.elapsed || turn.receiverGone
  }

  /** The first turn in which the time is up or the receiver is gone, or the number of turns. */
  function FirstEnd(turns: seq<Turn>): (k: nat)
    ensures k <= |turns| && forall i :: 0 <= i < k ==> !Ends(turns[i])
    ensures k < |turns| ==> Ends(turns[k])
  {
    if turns == [] || Ends(turns[0]) then 0 else 1 + FirstEnd(turns[1..])
  }

  lemma EndsHere(turns: seq<Turn>, k: nat)
    requires k <= FirstEnd(turns) && k < |turns|
    ensures Ends(turns[k]) <==> k == FirstEnd(turns)
  {}

  /** Turns that pass: none without the budget or when blocked, otherwise those before the first end. */
  function CompletedOf(p: Params, blocked: bool, turns: seq<Turn>): nat {
    if p.units < MinCuBudget(p.n) || blocked then 0 else FirstEnd(turns)
  }

  /** Time wins over a missing receiver, and either over missing payers. */
  function OutcomeOf(p: Params, blocked: bool, turns: seq<Turn>): Outcome {
    var k := CompletedOf(p, blocked, turns);
    if p.units < MinCuBudget(p.n) then InsufficientCuBudget
    else if k == |turns| then Running
    else if turns[k].elapsed then Stopped
    else if turns[k].receiverGone then ReceiverDropped
    else Panicked
  }

  /** The first turn fills the pool, every later one replaces the worker joined before it. */
  function Spawned(poolSize: nat, completed: nat): nat {
    if poolSize == 0 || completed == 0 then 0 else poolSize + completed - 1
  }

  function Joined(poolSize: nat, completed: nat): nat {
    if poolSize == 0 then 0 else completed
  }

  /** The turn that spawns worker `b`. */
  function TurnOf(b: nat, poolSize: nat): nat {
    if b < poolSize then 0 else b - poolSize + 1
  }

  /** Every worker got the blockhash of the turn that spawned it. */
  ghost predicate GivenInTurn(jobs: seq<Job>, poolSize: nat, turns: seq<Turn>) {
    forall b: nat :: b < |jobs| ==>
      TurnOf(b, poolSize) < |turns| && jobs[b].blockhash == turns[TurnOf(b, poolSize)].blockhash
  }

  lemma GivenGrows(before: seq<Job>, jobs: seq<Job>, poolSize: nat, turns: seq<Turn>, k: nat)
    requires GivenInTurn(before, poolSize, turns) && before <= jobs && k < |turns|
    requires |before| == Spawned(poolSize, k) && |jobs| == Spawned(poolSize, k + 1)
    requires forall b: nat :: |before| <= b < |jobs| ==> jobs[b].blockhash == turns[k].blockhash
    ensures GivenInTurn(jobs, poolSize, turns)
  {}

  /** The outcome, case by case: what has to be true of the turns for the loop to end so. */
  lemma OutcomeMeaning(p: Params, blocked: bool, turns: seq<Turn>)
    ensures var o := OutcomeOf(p, blocked, turns);
            var starts := p.units >= MinCuBudget(p.n);
            && (o == InsufficientCuBudget <==> !starts)
            && (o == Stopped <==> starts && exists i :: EndsAt(turns, i) && turns[i].elapsed && (i == 0 || !blocked))
            && (o == ReceiverDropped <==>
                  starts && exists i :: EndsAt(turns, i) && !turns[i].elapsed && (i == 0 || !blocked))
            && (o == Panicked <==> starts && blocked && turns != [] && !Ends(turns[0]))
            && (o == Running <==>
                  starts && (turns == [] || !blocked) && forall i :: 0 <= i < |turns| ==> !Ends(turns[i]))
    ensures var o, k := OutcomeOf(p, blocked, turns), CompletedOf(p, blocked, turns);
            match o
            case Running => k == |turns|
            case Stopped => EndsAt(turns, k)
            case ReceiverDropped => EndsAt(turns, k)
            case _ => k == 0
  {
    var k := FirstEnd(turns);
    if k < |turns| {
      assert EndsAt(turns, k);
      assert forall i :: EndsAt(turns, i) ==> i == k;
    }
  }

  /** Turn `i` ends the loop and no earlier one does. */
  ghost predicate EndsAt(turns: seq<Turn>, i: int) {
    0 <= i < |turns| && Ends(turns[i]) && forall j :: 0 <= j < i ==> !Ends(turns[j])
  }

  function Numbers(m: nat): (s: seq<nat>)
    ensures |s| == m
  {
    seq(m, i requires 0 <= i < m => i)
  }

  // ----- the batches as one stream

  /** The workers a generator spawned, and the amounts each of them drew. */
  datatype Work = Work(payers: seq<Keypair>, params: Params, jobs: seq<Job>, amounts: seq<seq<nat>>)

  function PlanOf(w: Work, b: nat): Plan
    requires b < |w.jobs| == |w.amounts|
  {
    Plan(w.payers, w.jobs[b].index, w.amounts[b], w.params.n, w.params.units, w.jobs[b].blockhash)
  }

  /** Every batch could be built. */
  ghost predicate Complete(w: Work) {
    |w.jobs| == |w.amounts| && forall b: nat :: b < |w.jobs| ==> Supplies(PlanOf(w, b), w.params.batch)
  }

  /** The transfers of batch `b`. */
  ghost function Part(w: Work, b: nat): seq<Instruction>
    requires Complete(w) && b < |w.jobs|
  {
    Flatten(BatchOf(PlanOf(w, b), w.params.batch))
  }

  function Concat(parts: seq<seq<Instruction>>): seq<Instruction> {
    if parts == [] then [] else Concat(parts[..|parts| - 1]) + parts[|parts| - 1]
  }

  /** All transfers, batch after batch in the order the workers were spawned. */
  ghost function Stream(w: Work): seq<Instruction>
    requires Complete(w)
  {
    Concat(seq(|w.jobs|, b requires 0 <= b < |w.jobs| => Part(w, b)))
  }

  /** Every worker started from the saved index. */
  ghost predicate InTurn(w: Work) {
    w.payers != [] && StartFromSaved(w.jobs, Advance(w.params), |w.payers|)
  }

  /** No step of the saved index between two of the batches breaks the cycle. */
  ghost predicate SeamsHold(w: Work)
    requires w.payers != []
  {
    forall b: nat :: b < |w.jobs| - 1 ==> SeamHolds(b, Advance(w.params), |w.payers|)
  }

  lemma BatchesFollow(w: Work)
    requires w.payers != []
    ensures SeamsHold(w) <==> forall b: nat :: b < |w.jobs| ==> FollowsCycle(b, Advance(w.params), |w.payers|)
  {
    if |w.jobs| > 0 {
      SavedIndexFollows(|w.jobs| - 1, Advance(w.params), |w.payers|);
    }
  }

  /** Position in the stream at which batch `b` starts, each batch holding `m` transfers. */
  function StartOf(b: nat, m: nat): nat {
    b * m
  }

  /** Every transaction of batch `b` carries the blockhash of the turn that spawned worker `b`. */
  lemma BatchCarriesBlockhash(w: Work, turns: seq<Turn>, b: nat, t: nat)
    requires Complete(w) && GivenInTurn(w.jobs, w.params.poolSize, turns)
    requires b < |w.jobs| && t < w.params.batch
    ensures TurnOf(b, w.params.poolSize) < |turns|
    ensures BatchOf(PlanOf(w, b), w.params.batch)[t].blockhash == turns[TurnOf(b, w.params.poolSize)].blockhash
  {
    TransactionShape(PlanOf(w, b), w.params.batch, t);
  }

  // ----- the compute unit budget

  /** Compute units an instruction takes. */
  function UnitsOf(i: Instruction): nat {
    match i
    case SetComputeUnitLimit(_) => 150
    case Transfer(_, _, _) => 150
  }

  function TotalUnits(instructions: seq<Instruction>): nat {
    if instructions == [] then 0
    else TotalUnits(instructions[..|instructions| - 1]) + UnitsOf(instructions[|instructions| - 1])
  }

  lemma {:induction false} UnitsPerInstruction(instructions: seq<Instruction>)
    ensures TotalUnits(instructions) == 150 * |instructions|
  {
    if instructions != [] {
      UnitsPerInstruction(instructions[..|instructions| - 1]);
    }
  }

  /** A generator starts exactly if the limit its transactions set covers the instructions they hold. */
  lemma BudgetCoversTransactions(params: Params, p: Plan, t: nat)
    requires Supplies(p, params.batch) && p.n == params.n && p.units == params.units && t < params.batch
    ensures var instructions := BatchOf(p, params.batch)[t].instructions;
            && instructions != [] && instructions[0].SetComputeUnitLimit?
            && (TotalUnits(instructions) <= instructions[0].units <==> params.units >= MinCuBudget(params.n))
  {
    TransactionShape(p, params.batch, t);
    UnitsPerInstruction(BatchOf(p, params.batch)[t].instructions);
  }

  /** Transfers of one batch. */
  function PerBatch(w: Work): nat {
    w.params.batch * w.params.n
  }

  lemma AdvanceIsTwice(p: Params)
    ensures Advance(p) == 2 * (p.batch * p.n)
  {
    assert p.n * p.batch == p.batch * p.n;
  }

  lemma Double(b: nat, m: nat)
    ensures b * (2 * m) == 2 * (b * m)
  {}

  /** Element `k` goes from payer `2 (base + k)` to payer `2 (base + k) + 1` of the cycle. */
  ghost predicate OnCycle(s: seq<Instruction>, payers: seq<Keypair>, base: nat) {
    payers != [] && forall k: nat :: k < |s| ==> IsTransferOf(s[k], payers, base + k)
  }

  ghost predicate IsTransferOf(t: Instruction, payers: seq<Keypair>, k: nat)
    requires payers != []
  {
    t.Transfer? && t.sender == payers[Sender(k, |payers|)] && t.receiver == payers[Receiver(k, |payers|)]
  }

  lemma OnCycleAppend(a: seq<Instruction>, b: seq<Instruction>, payers: seq<Keypair>)
    requires OnCycle(a, payers, 0) && OnCycle(b, payers, |a|)
    ensures OnCycle(a + b, payers, 0)
  {
    forall k: nat | k < |a + b| ensures IsTransferOf((a + b)[k], payers, k) {
      if k < |a| {
        assert IsTransferOf(a[k], payers, 0 + k);
      } else {
        assert IsTransferOf(b[k - |a|], payers, |a| + (k - |a|));
      }
    }
  }

  lemma PlanOnCycle(p: Plan, b: nat, m: nat, advance: nat)
    requires p.payers != [] && m <= |p.lamports| && p.index == SavedIndex(b, advance, |p.payers|)
    requires advance == 2 * m && FollowsCycle(b, advance, |p.payers|)
    ensures OnCycle(Transfers(p, 0, m), p.payers, StartOf(b, m))
  {
    forall j: nat | j < m ensures IsTransferOf(Transfers(p, 0, m)[j], p.payers, StartOf(b, m) + j) {
      assert Transfers(p, 0, m)[j] == TransferAt(p, j);
      BatchContinuesCycle(b, advance, |p.payers|, 2 * j);
      BatchContinuesCycle(b, advance, |p.payers|, 2 * j + 1);
      Double(b, m);
    }
  }

  /** The transfers of batch `b` continue the cycle where batch `b - 1` left it. */
  lemma BatchOnCycle(w: Work, b: nat)
    requires Complete(w) && InTurn(w) && SeamsHold(w) && b < |w.jobs|
    ensures |Part(w, b)| == PerBatch(w) && OnCycle(Part(w, b), w.payers, StartOf(b, PerBatch(w)))
  {
    BatchIsOneRun(PlanOf(w, b), w.params.batch);
    BatchesFollow(w);
    assert StartsAt(w.jobs, b, Advance(w.params), |w.payers|);
    AdvanceIsTwice(w.params);
    PlanOnCycle(PlanOf(w, b), b, PerBatch(w), Advance(w.params));
  }

  ghost predicate PartOnCycle(parts: seq<seq<Instruction>>, b: nat, payers: seq<Keypair>, m: nat) {
    b < |parts| && |parts[b]| == m && OnCycle(parts[b], payers, StartOf(b, m))
  }

  lemma {:induction false} ConcatOnCycle(parts: seq<seq<Instruction>>, payers: seq<Keypair>, m: nat)
    requires payers != [] && forall b: nat :: b < |parts| ==> PartOnCycle(parts, b, payers, m)
    ensures |Concat(parts)| == |parts| * m && OnCycle(Concat(parts), payers, 0)
  {
    if parts != [] {
      var last := |parts| - 1;
      var before := parts[..last];
      forall b: nat | b < last ensures PartOnCycle(before, b, payers, m) {
        assert PartOnCycle(parts, b, payers, m);
      }
      ConcatOnCycle(before, payers, m);
      assert PartOnCycle(parts, last, payers, m);
      Distribute(last, 1, m);
      OnCycleAppend(Concat(before), parts[last], payers);
    }
  }

  /**
   Seamless round robin: in the concatenation of all batches the `k`-th transfer goes from payer `2k` to
   payer `2k + 1` of the cycle, whatever the batch boundaries.
   */
  lemma StreamIsOneCycle(w: Work)
    requires Complete(w) && InTurn(w) && SeamsHold(w)
    ensures |Stream(w)| == |w.jobs| * PerBatch(w) && OnCycle(Stream(w), w.payers, 0)
  {
    var parts := seq(|w.jobs|, b requires 0 <= b < |w.jobs| => Part(w, b));
    forall b: nat | b < |parts| ensures PartOnCycle(parts, b, w.payers, PerBatch(w)) {
      BatchOnCycle(w, b);
    }
    ConcatOnCycle(parts, w.payers, PerBatch(w));
  }

  ghost predicate DistinctPayers(payers: seq<Keypair>) {
    forall i, j :: 0 <= i < j < |payers| ==> payers[i] != payers[j]
  }

  lemma {:induction false} ConcatAt(parts: seq<seq<Instruction>>, m: nat, b: nat)
    requires (forall i: nat :: i < |parts| ==> |parts[i]| == m) && m > 0 && b < |parts|
    ensures |Concat(parts)| == |parts| * m && b * m < |parts| * m && Concat(parts)[b * m] == parts[b][0]
  {
    var last := |parts| - 1;
    var before := parts[..last];
    Distribute(last, 1, m);
    if b < last {
      ConcatAt(before, m, b);
    } else if last > 0 {
      ConcatAt(before, m, 0);
    } else {
      assert before == [] && Concat(before) == [];
    }
  }

  /** Batch `b` begins with the payer at the index it was given. */
  lemma PartStarts(w: Work, b: nat)
    requires Complete(w) && InTurn(w) && b < |w.jobs| && w.params.batch > 0
    ensures |Part(w, b)| == PerBatch(w) > 0 && Part(w, b)[0].Transfer?
    ensures Part(w, b)[0].sender == w.payers[SavedIndex(b, Advance(w.params), |w.payers|)]
  {
    var p := PlanOf(w, b);
    BatchIsOneRun(p, w.params.batch);
    assert StartsAt(w.jobs, b, Advance(w.params), |w.payers|);
    RunStarts(p, PerBatch(w));
    MulLess(0, w.params.batch, w.params.n);
  }

  lemma RunStarts(p: Plan, m: nat)
    requires 0 < m <= |p.lamports| && p.payers != [] && p.index < |p.payers|
    ensures Transfers(p, 0, m)[0].Transfer? && Transfers(p, 0, m)[0].sender == p.payers[p.index]
  {
    assert Transfers(p, 0, m)[0] == TransferAt(p, 0);
    DivModUnique(0, |p.payers|, p.index);
  }

  lemma StartOfCycle(s: seq<Instruction>, payers: seq<Keypair>, b: nat, m: nat, advance: nat)
    requires OnCycle(s, payers, 0) && DistinctPayers(payers) && b * m < |s| && advance == 2 * m
    requires s[b * m].sender == payers[SavedIndex(b, advance, |payers|)]
    ensures FollowsCycle(b, advance, |payers|)
  {
    assert IsTransferOf(s[b * m], payers, 0 + b * m);
    Double(b, m);
  }

  /** The round robin is seamless exactly when no step of the saved index breaks the cycle. */
  lemma StreamIsOneCycleExactly(w: Work)
    requires Complete(w) && InTurn(w) && DistinctPayers(w.payers) && w.params.batch > 0
    ensures OnCycle(Stream(w), w.payers, 0) <==> SeamsHold(w)
  {
    if SeamsHold(w) {
      StreamIsOneCycle(w);
    }
    if OnCycle(Stream(w), w.payers, 0) {
      var parts := seq(|w.jobs|, b requires 0 <= b < |w.jobs| => Part(w, b));
      forall b: nat | b < |w.jobs| ensures |parts[b]| == PerBatch(w) {
        PartStarts(w, b);
      }
      AdvanceIsTwice(w.params);
      forall b: nat | b < |w.jobs| ensures FollowsCycle(b, Advance(w.params), |w.payers|) {
        PartStarts(w, b);
        ConcatAt(parts, PerBatch(w), b);
        StartOfCycle(Stream(w), w.payers, b, PerBatch(w), Advance(w.params));
      }
      BatchesFollow(w);
    }
  }

  ghost predicate ShareNoAccount(s: Instruction, t: Instruction) {
    && s.Transfer? && t.Transfer?
    && s.sender != t.sender && s.sender != t.receiver && s.receiver != t.sender && s.receiver != t.receiver
  }

  /**
   In the stream any `floor(L / 2)` consecutive transfers share no account, across transactions and batches.
   */
  lemma NearbyTransfersAreIndependent(w: Work, i: nat, j: nat)
    requires Complete(w) && InTurn(w) && SeamsHold(w) && DistinctPayers(w.payers)
    requires i < j < |Stream(w)| && j - i < |w.payers| / 2
    ensures ShareNoAccount(Stream(w)[i], Stream(w)[j])
    ensures Stream(w)[i].sender != Stream(w)[i].receiver
  {
    var s := Stream(w);
    StreamIsOneCycle(w);
    HalfCycleIsDisjoint(i, |w.payers|, i, j);
    assert IsTransferOf(s[i], w.payers, 0 + i) && IsTransferOf(s[j], w.payers, 0 + j);
  }

  /** Offsets of the window `k..k + l` at which `a` sends, and at which it receives. */
  function SentBy(s: seq<Instruction>, k: nat, l: nat, a: Keypair): set<nat>
    requires k + l <= |s|
  {
    set t | t in Offsets(l) && s[k + t].Transfer? && s[k + t].sender == a
  }

  function ReceivedBy(s: seq<Instruction>, k: nat, l: nat, a: Keypair): set<nat>
    requires k + l <= |s|
  {
    set t | t in Offsets(l) && s[k + t].Transfer? && s[k + t].receiver == a
  }

  lemma SharesOfStream(s: seq<Instruction>, payers: seq<Keypair>, k: nat, q: nat)
    requires OnCycle(s, payers, 0) && DistinctPayers(payers) && q < |payers| && k + |payers| <= |s|
    ensures SentBy(s, k, |payers|, payers[q]) == Sends(k, |payers|, q)
    ensures ReceivedBy(s, k, |payers|, payers[q]) == Receives(k, |payers|, q)
  {
    forall t: nat | t in Offsets(|payers|)
      ensures s[k + t].Transfer?
      ensures s[k + t].sender == payers[q] <==> Sender(k + t, |payers|) == q
      ensures s[k + t].receiver == payers[q] <==> Receiver(k + t, |payers|) == q
    {
      assert IsTransferOf(s[k + t], payers, 0 + (k + t));
    }
  }

  /**
   The stream is fair: among any `L` consecutive transfers every payer takes part twice, once each way if `L`
   is odd; if `L` is even, even-indexed payers only send and odd-indexed ones only receive.
   */
  lemma StreamIsFair(w: Work, k: nat, q: nat)
    requires Complete(w) && InTurn(w) && SeamsHold(w) && DistinctPayers(w.payers)
    requires q < |w.payers| && k + |w.payers| <= |Stream(w)|
    ensures var s, l := Stream(w), |w.payers|;
            && |SentBy(s, k, l, w.payers[q])| == (if l % 2 == 1 then 1 else if q % 2 == 0 then 2 else 0)
            && |ReceivedBy(s, k, l, w.payers[q])| == if l % 2 == 1 then 1 else if q % 2 == 0 then 0 else 2
  {
    StreamIsOneCycle(w);
    SharesOfStream(Stream(w), w.payers, k, q);
    CycleShares(k, |w.payers|, q);
  }
}
