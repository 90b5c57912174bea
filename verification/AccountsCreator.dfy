/** The retry loop that creates accounts in batches sized by its own success so far. */
module AccountsCreator {
  import opened Wrappers
  import opened Listing

  const MAX_RPC_SEND_TX_BATCH: nat := 64
  const MAX_CONTINUOUS_FAILED_ATTEMPTS: nat := 100

  /** A fresh keypair, named by the send that generated it and its place in that batch. */
  datatype Account = Account(attempt: nat, position: nat)

  /** What the RPC node does in one iteration: no blockhash, or the batch positions whose transaction landed. */
  datatype Response = NoBlockhash | Landed(positions: set<nat>)

  datatype Progress = Progress(created: seq<Account>, attempts: nat, failures: nat)

  function Min(a: nat, b: nat): nat { if a <= b then a else b }

  /** `calculate_batch_size`; the division is skipped before the first attempt. */
  function BatchSize(numAccounts: nat, created: nat, attempts: nat): nat
    requires created <= numAccounts
  {
    var mean := if attempts == 0 then Min(numAccounts, MAX_RPC_SEND_TX_BATCH) else created / attempts;
    Min(mean + 1, numAccounts - created)
  }

  /** `create_transaction_batch`: one new account per position. */
  function NewBatch(attempt: nat, size: nat): seq<Account> {
    seq(size, i requires 0 <= i < size => Account(attempt, i))
  }

  /** `send_transaction_batch`: the accounts whose transaction was confirmed, in batch order. */
  function Confirmed(batch: seq<Account>, positions: set<nat>): (landed: seq<Account>)
    ensures |landed| <= |batch|
  {
    if batch == [] then []
    else
      var last := batch[|batch| - 1];
      Confirmed(batch[..|batch| - 1], positions) + if last.position in positions then [last] else []
  }

  // ----- the loop as a function of the RPC node's behaviour

  predicate Stopped(n: nat, maxFailures: nat, p: Progress) {
    |p.created| >= n || p.failures >= maxFailures
  }

  function Iterate(n: nat, p: Progress, r: Response): (p': Progress)
    requires |p.created| < n
    ensures |p'.created| <= n
  {
    match r
    case NoBlockhash => p.(failures := p.failures + 1)
    case Landed(positions) =>
      var landed := Confirmed(NewBatch(p.attempts, BatchSize(n, |p.created|, p.attempts)), positions);
      Progress(p.created + landed, p.attempts + 1, if landed == [] then p.failures + 1 else 0)
  }

  /** State after at most `k` iterations; a stopped loop stays as it is. */
  function After(n: nat, maxFailures: nat, rpc: nat -> Response, k: nat): (p: Progress)
    ensures |p.created| <= n
  {
    if k == 0 then Progress([], 0, 0)
    else
      var p := After(n, maxFailures, rpc, k - 1);
      if Stopped(n, maxFailures, p) then p else Iterate(n, p, rpc(k - 1))
  }

  /** Accounts that iteration `k` asks for. */
  function BatchAt(n: nat, maxFailures: nat, rpc: nat -> Response, k: nat): nat {
    var p := After(n, maxFailures, rpc, k);
    BatchSize(n, |p.created|, p.attempts)
  }

  /** One iteration either creates something and clears the failure counter, or creates nothing and raises it. */
  lemma OneIteration(n: nat, maxFailures: nat, rpc: nat -> Response, k: nat)
    requires k > 0 && !Stopped(n, maxFailures, After(n, maxFailures, rpc, k - 1))
    ensures var p, p' := After(n, maxFailures, rpc, k - 1), After(n, maxFailures, rpc, k);
            && (p'.created != p.created <==> p'.failures == 0)
            && (p'.created == p.created ==>
                  p'.failures == p.failures + 1 && p.attempts <= p'.attempts <= p.attempts + 1)
            && (p'.created != p.created ==>
                  && |p.created| < |p'.created| <= |p.created| + BatchAt(n, maxFailures, rpc, k - 1)
                  && p'.attempts == p.attempts + 1)
  {
    var p := After(n, maxFailures, rpc, k - 1);
    assert p.created + [] == p.created;
  }

  lemma {:induction false} MulGap(m: nat, a: nat, b: nat)
    requires a >= b + 1
    ensures m * a >= m * b + m
    decreases a
  {
    MulSucc(m, a - 1);
    if a > b + 1 {
      MulGap(m, a - 1, b);
    }
  }

  lemma MulSucc(m: nat, a: nat)
    ensures m * (a + 1) == m * a + m
  {}

  // ----- batches stay small

  lemma MeanBound(created: nat, attempts: nat, m: nat)
    requires attempts >= 1 && created <= (m + 2) * attempts - 1
    ensures created / attempts <= m + 1
  {
    QuotientBelow(created, attempts, m + 2);
  }

  lemma MulMono(a: nat, b: nat, d: nat)
    ensures a <= b ==> a * d <= b * d
  {}

  lemma QuotientBelow(x: nat, d: nat, q: nat)
    requires d >= 1 && x < q * d
    ensures x / d < q
  {
    MulMono(q, x / d, d);
    assert x / d * d <= x;
  }

  lemma QuotientAtLeast(x: nat, d: nat, q: nat)
    requires d >= 1 && q * d <= x
    ensures x / d >= q
  {
    MulMono(x / d + 1, q, d);
    assert x < (x / d + 1) * d;
  }

  lemma BatchOf(n: nat, p: Progress)
    requires |p.created| <= n
    requires if p.attempts == 0 then p.created == []
             else |p.created| <= (Min(n, MAX_RPC_SEND_TX_BATCH) + 2) * p.attempts - 1
    ensures BatchSize(n, |p.created|, p.attempts) <= Min(n, MAX_RPC_SEND_TX_BATCH) + if p.attempts == 0 then 1 else 2
  {
    if p.attempts > 0 {
      MeanBound(|p.created|, p.attempts, Min(n, MAX_RPC_SEND_TX_BATCH));
    }
  }

  lemma BoundStep(m: nat, c: nat, a: nat, c': nat, a': nat)
    requires m >= 1 && (if a == 0 then c == 0 else c <= m * a - 1)
    requires if c' == c then a <= a' <= a + 1 else a' == a + 1 && c' <= c + if a == 0 then m - 1 else m
    ensures if a' == 0 then c' == 0 else c' <= m * a' - 1
  {
    MulSucc(m, a);
  }

  lemma {:induction false} CreatedBound(n: nat, maxFailures: nat, rpc: nat -> Response, k: nat)
    ensures var p := After(n, maxFailures, rpc, k);
            if p.attempts == 0 then p.created == []
            else |p.created| <= (Min(n, MAX_RPC_SEND_TX_BATCH) + 2) * p.attempts - 1
  {
    if k > 0 && !Stopped(n, maxFailures, After(n, maxFailures, rpc, k - 1)) {
      CreatedBound(n, maxFailures, rpc, k - 1);
      OneIteration(n, maxFailures, rpc, k);
      var p, p' := After(n, maxFailures, rpc, k - 1), After(n, maxFailures, rpc, k);
      BatchOf(n, p);
      BoundStep(Min(n, MAX_RPC_SEND_TX_BATCH) + 2, |p.created|, p.attempts, |p'.created|, p'.attempts);
    } else if k > 0 {
      CreatedBound(n, maxFailures, rpc, k - 1);
    }
  }

  /**
   Whatever the RPC node does, every batch asks for at least one account, for no more than are missing, and
   for no more than the concurrency limit plus two.
   */
  lemma BatchBound(n: nat, maxFailures: nat, rpc: nat -> Response, k: nat)
    requires !Stopped(n, maxFailures, After(n, maxFailures, rpc, k))
    ensures 1 <= BatchAt(n, maxFailures, rpc, k) <= n - |After(n, maxFailures, rpc, k).created|
    ensures BatchAt(n, maxFailures, rpc, k) <= Min(n, MAX_RPC_SEND_TX_BATCH) + 2
  {
    CreatedBound(n, maxFailures, rpc, k);
    BatchOf(n, After(n, maxFailures, rpc, k));
  }

  // ----- constant capacity

  /** The response lands as many transactions of the batch as a node of capacity `c` can, whichever they are. */
  predicate LandsMin(n: nat, p: Progress, r: Response, c: nat)
    requires |p.created| <= n
  {
    var size := BatchSize(n, |p.created|, p.attempts);
    r.Landed? && |Confirmed(NewBatch(p.attempts, size), r.positions)| == Min(size, c)
  }

  predicate KeepsUp(n: nat, maxFailures: nat, rpc: nat -> Response, c: nat, k: nat) {
    var p := After(n, maxFailures, rpc, k);
    !Stopped(n, maxFailures, p) ==> LandsMin(n, p, rpc(k), c)
  }

  /** A node of constant capacity `c`. */
  ghost predicate HasCapacity(n: nat, maxFailures: nat, rpc: nat -> Response, c: nat) {
    forall k: nat :: KeepsUp(n, maxFailures, rpc, c, k)
  }

  function Below(c: nat): (s: set<nat>)
    ensures forall i: nat :: i in s <==> i < c
  {
    if c == 0 then {} else Below(c - 1) + {c - 1}
  }

  /** A node that lands the first `c` transactions of any batch. */
  function Capacity(c: nat): nat -> Response {
    _ => Landed(Below(c))
  }

  lemma {:induction false} ConfirmedBelow(attempt: nat, size: nat, c: nat)
    ensures |Confirmed(NewBatch(attempt, size), Below(c))| == Min(size, c)
  {
    if size > 0 {
      ConfirmedBelow(attempt, size - 1, c);
      assert NewBatch(attempt, size)[..size - 1] == NewBatch(attempt, size - 1);
    }
  }

  /** For instance, the node that lands the first `c` transactions of every batch. */
  lemma CapacityExists(n: nat, maxFailures: nat, c: nat)
    ensures HasCapacity(n, maxFailures, Capacity(c), c)
  {
    forall k: nat ensures KeepsUp(n, maxFailures, Capacity(c), c, k) {
      var p := After(n, maxFailures, Capacity(c), k);
      ConfirmedBelow(p.attempts, BatchSize(n, |p.created|, p.attempts), c);
    }
  }

  /** Accounts created by `a` sends of a node of capacity `c`, were there no limit on their number. */
  function Landings(n: nat, c: nat, a: nat): nat {
    var m := Min(n, MAX_RPC_SEND_TX_BATCH);
    if a == 0 then 0 else if c <= m + 1 then c * a else (m + 2) * a - 1
  }

  lemma DivExact(c: nat, a: nat, r: nat)
    requires a >= 1 && r < a
    ensures (c * a + r) / a == c
  {
    QuotientAtLeast(c * a + r, a, c);
    QuotientBelow(c * a + r, a, c + 1);
  }

  lemma LandingsMean(n: nat, c: nat, a: nat)
    requires a >= 1
    ensures Landings(n, c, a) / a == Min(c, Min(n, MAX_RPC_SEND_TX_BATCH) + 1)
  {
    var m := Min(n, MAX_RPC_SEND_TX_BATCH);
    if c <= m + 1 {
      DivExact(c, a, 0);
    } else {
      assert (m + 2) * a - 1 == (m + 1) * a + (a - 1);
      DivExact(m + 1, a, a - 1);
    }
  }

  lemma LandingsGrow(n: nat, c: nat, a: nat)
    requires c >= 1
    ensures var m := Min(n, MAX_RPC_SEND_TX_BATCH);
            Landings(n, c, a + 1) == Landings(n, c, a) + if a == 0 then Min(c, m + 1) else Min(c, m + 2)
  {}

  /** One send of a node of capacity `c`, in numbers. */
  lemma LandedBySend(n: nat, c: nat, a: nat)
    requires c >= 1 && Landings(n, c, a) < n
    ensures Landings(n, c, a) + Min(BatchSize(n, Landings(n, c, a), a), c) == Min(n, Landings(n, c, a + 1))
  {
    LandingsGrow(n, c, a);
    if a > 0 {
      LandingsMean(n, c, a);
    }
  }

  lemma IterateLanding(n: nat, p: Progress, r: Response, c: nat)
    requires |p.created| < n && c >= 1 && LandsMin(n, p, r, c)
    ensures var p' := Iterate(n, p, r);
            && |p'.created| == |p.created| + Min(BatchSize(n, |p.created|, p.attempts), c)
            && p'.attempts == p.attempts + 1 && p'.failures == 0
  {}

  lemma CapacityStep(n: nat, maxFailures: nat, rpc: nat -> Response, c: nat, k: nat, p: Progress, created: nat)
    requires c >= 1 && k > 0 && p == After(n, maxFailures, rpc, k - 1) && !Stopped(n, maxFailures, p)
    requires KeepsUp(n, maxFailures, rpc, c, k - 1)
    requires |p.created| + Min(BatchSize(n, |p.created|, p.attempts), c) == created
    ensures var p' := After(n, maxFailures, rpc, k);
            |p'.created| == created && p'.failures == 0 && p'.attempts == p.attempts + 1
  {
    IterateLanding(n, p, rpc(k - 1), c);
  }

  lemma LandingsNeverDrop(n: nat, c: nat, a: nat)
    requires c >= 1
    ensures Landings(n, c, a) <= Landings(n, c, a + 1)
  {
    LandingsGrow(n, c, a);
  }

  /** What is known of the progress `p` after `k` iterations, in numbers. */
  ghost predicate OnTrack(n: nat, c: nat, k: nat, p: Progress) {
    && |p.created| == Min(n, Landings(n, c, k)) && p.failures == 0
    && p.attempts <= k && (k == 0 || Landings(n, c, k - 1) < n ==> p.attempts == k)
  }

  lemma OnTrackRunning(n: nat, c: nat, k: nat, p: Progress)
    requires c >= 1 && OnTrack(n, c, k, p) && |p.created| < n
    ensures p.attempts == k && |p.created| == Landings(n, c, k)
  {
    if k > 0 {
      LandingsNeverDrop(n, c, k - 1);
    }
  }

  lemma OnTrackFinished(n: nat, c: nat, k: nat, p: Progress)
    requires c >= 1 && OnTrack(n, c, k, p) && |p.created| >= n
    ensures OnTrack(n, c, k + 1, p)
  {
    LandingsNeverDrop(n, c, k);
  }

  /**
   A node of constant capacity `c`: after `k` iterations the loop has made `k` sends, unless it had finished,
   and created the accounts `Landings` says.
   */
  lemma {:induction false} CapacityProgress(n: nat, maxFailures: nat, rpc: nat -> Response, c: nat, k: nat)
    requires c >= 1 && maxFailures >= 1 && HasCapacity(n, maxFailures, rpc, c)
    ensures OnTrack(n, c, k, After(n, maxFailures, rpc, k))
  {
    if k > 0 {
      CapacityProgress(n, maxFailures, rpc, c, k - 1);
      var p := After(n, maxFailures, rpc, k - 1);
      if |p.created| >= n {
        OnTrackFinished(n, c, k - 1, p);
      } else {
        OnTrackRunning(n, c, k - 1, p);
        LandedBySend(n, c, k - 1);
        assert KeepsUp(n, maxFailures, rpc, c, k - 1);
        CapacityStep(n, maxFailures, rpc, c, k, p, Min(n, Landings(n, c, k)));
        OnTrackAfter(n, c, k, After(n, maxFailures, rpc, k));
      }
    }
  }

  lemma OnTrackAfter(n: nat, c: nat, k: nat, p: Progress)
    requires |p.created| == Min(n, Landings(n, c, k)) && p.failures == 0 && p.attempts == k
    ensures OnTrack(n, c, k, p)
  {}

  /**
   Convergence, for every capacity: after the first send each batch asks for one more than the capacity, or
   for all that is missing, as long as the capacity is at most one above the concurrency limit; beyond that
   the batch size stays two above the limit and no longer follows the capacity.
   */
  lemma BatchFollowsCapacity(n: nat, maxFailures: nat, rpc: nat -> Response, c: nat, k: nat)
    requires c >= 1 && maxFailures >= 1 && HasCapacity(n, maxFailures, rpc, c)
    requires k >= 1 && !Stopped(n, maxFailures, After(n, maxFailures, rpc, k))
    ensures var missing := n - |After(n, maxFailures, rpc, k).created|;
            BatchAt(n, maxFailures, rpc, k) == Min(Min(c, Min(n, MAX_RPC_SEND_TX_BATCH) + 1) + 1, missing)
  {
    CapacityProgress(n, maxFailures, rpc, c, k);
    OnTrackRunning(n, c, k, After(n, maxFailures, rpc, k));
    LandingsMean(n, c, k);
  }

  /** The number of sends: the first number of landings that reaches `n`. */
  lemma CapacityFinishes(n: nat, maxFailures: nat, rpc: nat -> Response, c: nat, k: nat)
    requires c >= 1 && maxFailures >= 1 && HasCapacity(n, maxFailures, rpc, c)
    ensures Stopped(n, maxFailures, After(n, maxFailures, rpc, k)) <==> Landings(n, c, k) >= n
    ensures Landings(n, c, k) >= n ==> |After(n, maxFailures, rpc, k).created| == n
  {
    CapacityProgress(n, maxFailures, rpc, c, k);
  }

  function CeilDiv(n: nat, c: nat): nat
    requires c >= 1
  {
    (n + c - 1) / c
  }

  lemma CeilDivMeaning(n: nat, c: nat, k: nat)
    requires c >= 1
    ensures k * c >= n <==> k >= CeilDiv(n, c)
  {
    if k * c >= n {
      QuotientBelow(n + c - 1, c, k + 1);
    } else {
      MulSucc(c, k);
      QuotientAtLeast(n + c - 1, c, k + 1);
    }
  }

  /** Within the range the batch size can follow, the run takes exactly the ceiling of `n / c` sends. */
  lemma ExactNumberOfSends(n: nat, maxFailures: nat, rpc: nat -> Response, c: nat, k: nat)
    requires maxFailures >= 1 && 1 <= c <= Min(n, MAX_RPC_SEND_TX_BATCH) + 1 && HasCapacity(n, maxFailures, rpc, c)
    ensures Stopped(n, maxFailures, After(n, maxFailures, rpc, k)) <==> k >= CeilDiv(n, c)
    ensures After(n, maxFailures, rpc, CeilDiv(n, c)).attempts == CeilDiv(n, c)
  {
    CapacityFinishes(n, maxFailures, rpc, c, k);
    LandingsInRange(n, c, k);
    CeilDivMeaning(n, c, k);
    SendsAtTheEnd(n, maxFailures, rpc, c, CeilDiv(n, c));
  }

  lemma LandingsInRange(n: nat, c: nat, k: nat)
    requires c <= Min(n, MAX_RPC_SEND_TX_BATCH) + 1
    ensures Landings(n, c, k) == k * c
  {}

  lemma SendsAtTheEnd(n: nat, maxFailures: nat, rpc: nat -> Response, c: nat, q: nat)
    requires maxFailures >= 1 && 1 <= c <= Min(n, MAX_RPC_SEND_TX_BATCH) + 1 && HasCapacity(n, maxFailures, rpc, c)
    requires q == CeilDiv(n, c)
    ensures After(n, maxFailures, rpc, q).attempts == q
  {
    CapacityProgress(n, maxFailures, rpc, c, q);
    if q >= 1 {
      CeilDivMeaning(n, c, q - 1);
      LandingsInRange(n, c, q - 1);
    }
  }

  // ----- termination, short results

  /** The last `f` iterations before `k` created nothing. */
  ghost predicate Idle(n: nat, maxFailures: nat, rpc: nat -> Response, k: nat, f: nat) {
    && f <= k
    && forall j: nat :: k - f <= j <= k ==>
         After(n, maxFailures, rpc, j).created == After(n, maxFailures, rpc, k).created
  }

  /** While the loop runs, the failure counter is the length of the current streak of fruitless iterations. */
  lemma {:induction false} FailuresAreIdle(n: nat, maxFailures: nat, rpc: nat -> Response, k: nat)
    requires k == 0 || !Stopped(n, maxFailures, After(n, maxFailures, rpc, k - 1))
    ensures var f := After(n, maxFailures, rpc, k).failures;
            Idle(n, maxFailures, rpc, k, f) && (f < k ==> !Idle(n, maxFailures, rpc, k, f + 1))
  {
    if k > 0 {
      StaysStopped(n, maxFailures, rpc, k - 1);
      FailuresAreIdle(n, maxFailures, rpc, k - 1);
      OneIteration(n, maxFailures, rpc, k);
      var p, p' := After(n, maxFailures, rpc, k - 1), After(n, maxFailures, rpc, k);
      if p'.created == p.created {
        IdleBefore(n, maxFailures, rpc, k, p'.failures);
      }
    }
  }

  lemma IdleBefore(n: nat, maxFailures: nat, rpc: nat -> Response, k: nat, f: nat)
    requires k > 0 && After(n, maxFailures, rpc, k).created == After(n, maxFailures, rpc, k - 1).created
    ensures Idle(n, maxFailures, rpc, k, f + 1) ==> Idle(n, maxFailures, rpc, k - 1, f)
  {}

  lemma IdleShorter(n: nat, maxFailures: nat, rpc: nat -> Response, k: nat, f: nat, g: nat)
    requires g <= f
    ensures Idle(n, maxFailures, rpc, k, f) ==> Idle(n, maxFailures, rpc, k, g)
  {}

  lemma StaysStopped(n: nat, maxFailures: nat, rpc: nat -> Response, k: nat)
    ensures k > 0 && Stopped(n, maxFailures, After(n, maxFailures, rpc, k - 1)) ==>
              Stopped(n, maxFailures, After(n, maxFailures, rpc, k))
  {}

  /** Iterations made so far are paid for by accounts created and by the current streak. */
  lemma {:induction false} IterationBudget(n: nat, maxFailures: nat, rpc: nat -> Response, k: nat)
    requires k == 0 || !Stopped(n, maxFailures, After(n, maxFailures, rpc, k - 1))
    ensures var p := After(n, maxFailures, rpc, k);
            k <= maxFailures * |p.created| + p.failures && p.failures <= maxFailures
  {
    if k > 0 {
      StaysStopped(n, maxFailures, rpc, k - 1);
      IterationBudget(n, maxFailures, rpc, k - 1);
      OneIteration(n, maxFailures, rpc, k);
      var p, p' := After(n, maxFailures, rpc, k - 1), After(n, maxFailures, rpc, k);
      if p'.created != p.created {
        MulGap(maxFailures, |p'.created|, |p.created|);
      }
    }
  }

  /** Iterations within which the loop stops. */
  function IterationLimit(n: nat, maxFailures: nat): nat {
    n * maxFailures
  }

  lemma BudgetSpent(n: nat, m: nat, c: nat, f: nat)
    ensures c < n && f < m ==> m * c + f < n * m
  {
    MulMono(c + 1, n, m);
    assert (c + 1) * m == m * c + m;
  }

  /** The loop stops within `IterationLimit(n, maxFailures)` iterations, whatever the RPC node does. */
  lemma StopsInTime(n: nat, maxFailures: nat, rpc: nat -> Response)
    ensures Stopped(n, maxFailures, After(n, maxFailures, rpc, IterationLimit(n, maxFailures)))
  {
    var k: nat := IterationLimit(n, maxFailures);
    var p := After(n, maxFailures, rpc, k);
    StaysStopped(n, maxFailures, rpc, k);
    if k == 0 || !Stopped(n, maxFailures, After(n, maxFailures, rpc, k - 1)) {
      IterationBudget(n, maxFailures, rpc, k);
      BudgetSpent(n, maxFailures, |p.created|, p.failures);
    }
  }

  lemma {:induction false} RunningBefore(n: nat, maxFailures: nat, rpc: nat -> Response, j: nat, k: nat)
    requires j <= k && !Stopped(n, maxFailures, After(n, maxFailures, rpc, k))
    ensures !Stopped(n, maxFailures, After(n, maxFailures, rpc, j))
    decreases k - j
  {
    if j < k {
      RunningBefore(n, maxFailures, rpc, j + 1, k);
    }
  }

  /** Lands one transaction in every `maxFailures`-th iteration. */
  function Grudging(maxFailures: nat): nat -> Response
    requires maxFailures >= 1
  {
    (k: nat) => if k % maxFailures == maxFailures - 1 then Landed({0}) else NoBlockhash
  }

  lemma GrudgingResponse(maxFailures: nat, q: nat, r: nat)
    requires maxFailures >= 1 && r < maxFailures
    ensures Grudging(maxFailures)(q * maxFailures + r) == if r == maxFailures - 1 then Landed({0}) else NoBlockhash
  {
    ModOf(q, maxFailures, r);
  }

  lemma GrudgingStep(n: nat, maxFailures: nat, k: nat, p: Progress)
    requires maxFailures >= 1 && k > 0 && p == After(n, maxFailures, Grudging(maxFailures), k - 1)
    requires !Stopped(n, maxFailures, p)
    ensures Grudging(maxFailures)(k - 1) == NoBlockhash ==>
              After(n, maxFailures, Grudging(maxFailures), k) == p.(failures := p.failures + 1)
    ensures Grudging(maxFailures)(k - 1) == Landed({0}) ==>
              var p' := After(n, maxFailures, Grudging(maxFailures), k);
              |p'.created| == |p.created| + 1 && p'.attempts == p.attempts + 1 && p'.failures == 0
  {
    OneConfirmed(p.attempts, BatchSize(n, |p.created|, p.attempts));
  }

  lemma {:induction false} GrudgingProgress(n: nat, maxFailures: nat, q: nat, r: nat, k: nat)
    requires maxFailures >= 1 && q < n && r < maxFailures && k == q * maxFailures + r
    ensures var p := After(n, maxFailures, Grudging(maxFailures), k);
            |p.created| == q && p.attempts == q && p.failures == r
    decreases k
  {
    if r > 0 {
      GrudgingProgress(n, maxFailures, q, r - 1, k - 1);
      GrudgingResponse(maxFailures, q, r - 1);
      GrudgingStep(n, maxFailures, k, After(n, maxFailures, Grudging(maxFailures), k - 1));
    } else if q > 0 {
      MulSucc(maxFailures, q - 1);
      assert maxFailures * q == q * maxFailures && maxFailures * (q - 1) == (q - 1) * maxFailures;
      GrudgingProgress(n, maxFailures, q - 1, maxFailures - 1, k - 1);
      GrudgingResponse(maxFailures, q - 1, maxFailures - 1);
      GrudgingStep(n, maxFailures, k, After(n, maxFailures, Grudging(maxFailures), k - 1));
    }
  }

  lemma ModOf(q: nat, d: nat, r: nat)
    requires d >= 1 && r < d
    ensures (q * d + r) % d == r
  {
    DivExact(q, d, r);
    assert (q * d + r) == ((q * d + r) / d) * d + (q * d + r) % d;
  }

  lemma {:induction false} OneConfirmed(attempt: nat, size: nat)
    requires size >= 1
    ensures |Confirmed(NewBatch(attempt, size), {0})| == 1
  {
    assert NewBatch(attempt, size)[..size - 1] == NewBatch(attempt, size - 1);
    if size > 1 {
      OneConfirmed(attempt, size - 1);
    }
  }

  /** The iteration bound is reached: no smaller bound holds for every RPC node. */
  lemma BoundIsTight(n: nat, maxFailures: nat)
    requires n >= 1 && maxFailures >= 1
    ensures !Stopped(n, maxFailures, After(n, maxFailures, Grudging(maxFailures), IterationLimit(n, maxFailures) - 1))
  {
    MulSucc(maxFailures, n - 1);
    assert maxFailures * n == IterationLimit(n, maxFailures) && maxFailures * (n - 1) == (n - 1) * maxFailures;
    GrudgingProgress(n, maxFailures, n - 1, maxFailures - 1, IterationLimit(n, maxFailures) - 1);
  }

  // ----- how large batches get

  /** The largest batch any node can make the loop send. */
  function LargestBatch(n: nat): nat {
    if n <= MAX_RPC_SEND_TX_BATCH + 1 then n
    else if n < 2 * MAX_RPC_SEND_TX_BATCH + 3 then MAX_RPC_SEND_TX_BATCH + 1
    else MAX_RPC_SEND_TX_BATCH + 2
  }

  /** If iteration `k` is reached, it sends at most `b` transactions. */
  predicate SendsAtMost(n: nat, maxFailures: nat, rpc: nat -> Response, k: nat, b: nat) {
    !Stopped(n, maxFailures, After(n, maxFailures, rpc, k)) ==> BatchAt(n, maxFailures, rpc, k) <= b
  }

  lemma BatchAtMostLargest(n: nat, maxFailures: nat, rpc: nat -> Response, k: nat)
    requires !Stopped(n, maxFailures, After(n, maxFailures, rpc, k))
    ensures BatchAt(n, maxFailures, rpc, k) <= LargestBatch(n)
  {
    BatchBound(n, maxFailures, rpc, k);
    var p := After(n, maxFailures, rpc, k);
    if n > MAX_RPC_SEND_TX_BATCH + 1 && p.attempts > 0 && |p.created| <= MAX_RPC_SEND_TX_BATCH {
      MulMono(1, p.attempts, MAX_RPC_SEND_TX_BATCH + 1);
      QuotientBelow(|p.created|, p.attempts, MAX_RPC_SEND_TX_BATCH + 1);
    }
  }

  lemma LargestIsSent(n: nat, maxFailures: nat) returns (rpc: nat -> Response, k: nat)
    requires n >= 1 && maxFailures >= 1
    ensures !Stopped(n, maxFailures, After(n, maxFailures, rpc, k))
    ensures BatchAt(n, maxFailures, rpc, k) == LargestBatch(n)
  {
    var c := MAX_RPC_SEND_TX_BATCH + 1;
    rpc := Capacity(c);
    CapacityExists(n, maxFailures, c);
    k := if n < 2 * MAX_RPC_SEND_TX_BATCH + 3 then 0 else 1;
    CapacityProgress(n, maxFailures, rpc, c, k);
    if k == 1 {
      BatchFollowsCapacity(n, maxFailures, rpc, c, k);
    }
  }

  /** Which bounds hold for the batches of every run against every node. */
  lemma BatchBoundsExactly(n: nat, maxFailures: nat, b: nat)
    ensures (forall rpc, k :: SendsAtMost(n, maxFailures, rpc, k, b)) <==> LargestBatch(n) <= b || maxFailures == 0
  {
    forall rpc, k ensures LargestBatch(n) <= b || maxFailures == 0 ==> SendsAtMost(n, maxFailures, rpc, k, b) {
      if !Stopped(n, maxFailures, After(n, maxFailures, rpc, k)) {
        BatchAtMostLargest(n, maxFailures, rpc, k);
      }
    }
    if LargestBatch(n) > b && maxFailures >= 1 {
      var rpc, k := LargestIsSent(n, maxFailures);
      assert !SendsAtMost(n, maxFailures, rpc, k, b);
    }
  }

  /** The limit on concurrent sends holds exactly when no more accounts than that are wanted. */
  lemma LimitHoldsExactly(n: nat, maxFailures: nat)
    ensures (forall rpc, k :: SendsAtMost(n, maxFailures, rpc, k, MAX_RPC_SEND_TX_BATCH))
            <==> n <= MAX_RPC_SEND_TX_BATCH || maxFailures == 0
  {
    BatchBoundsExactly(n, maxFailures, MAX_RPC_SEND_TX_BATCH);
  }

  /** For instance, a perfect node is sent batches of 65 and then 66. */
  lemma BatchesExceedLimit()
    ensures BatchAt(200, 1, Capacity(200), 0) == MAX_RPC_SEND_TX_BATCH + 1
    ensures BatchAt(200, 1, Capacity(200), 1) == MAX_RPC_SEND_TX_BATCH + 2
  {
    CapacityExists(200, 1, 200);
    CapacityProgress(200, 1, Capacity(200), 200, 0);
    CapacityProgress(200, 1, Capacity(200), 200, 1);
  }

  // ----- which accounts are created

  /** Positions of a batch whose transaction landed. */
  function LandedPositions(size: nat, positions: set<nat>): set<nat> {
    set j: nat | j < size && j in positions
  }

  ghost function AccountsAt(attempt: nat, ks: seq<nat>): seq<Account> {
    seq(|ks|, i requires 0 <= i < |ks| => Account(attempt, ks[i]))
  }

  lemma AccountsSnoc(attempt: nat, ks: seq<nat>, k: nat)
    ensures AccountsAt(attempt, ks + [k]) == AccountsAt(attempt, ks) + [Account(attempt, k)]
  {}

  /** Of a batch exactly the accounts whose transaction landed are kept, in batch order. */
  lemma {:induction false} ConfirmedAreLanded(attempt: nat, size: nat, positions: set<nat>)
    ensures Confirmed(NewBatch(attempt, size), positions)
            == AccountsAt(attempt, InOrder(LandedPositions(size, positions)))
  {
    if size == 0 {
      assert LandedPositions(0, positions) == {};
    } else {
      ConfirmedAreLanded(attempt, size - 1, positions);
      assert NewBatch(attempt, size)[..size - 1] == NewBatch(attempt, size - 1);
      var before, all := LandedPositions(size - 1, positions), LandedPositions(size, positions);
      if size - 1 in positions {
        InOrderSnoc(before, size - 1, all);
        AccountsSnoc(attempt, InOrder(before), size - 1);
      } else {
        assert all == before;
      }
    }
  }

  /** Iteration `k` takes place and sends a batch, because it got a blockhash. */
  predicate IsSend(n: nat, maxFailures: nat, rpc: nat -> Response, k: nat) {
    !Stopped(n, maxFailures, After(n, maxFailures, rpc, k)) && rpc(k).Landed?
  }

  /** Batches sent before iteration `k`. */
  function SendsBefore(n: nat, maxFailures: nat, rpc: nat -> Response, k: nat): nat {
    if k == 0 then 0 else SendsBefore(n, maxFailures, rpc, k - 1) + if IsSend(n, maxFailures, rpc, k - 1) then 1 else 0
  }

  /** Every batch sent counts as an attempt, whether anything of it landed or not. */
  lemma {:induction false} AttemptsAreSends(n: nat, maxFailures: nat, rpc: nat -> Response, k: nat)
    ensures After(n, maxFailures, rpc, k).attempts == SendsBefore(n, maxFailures, rpc, k)
  {
    if k > 0 {
      AttemptsAreSends(n, maxFailures, rpc, k - 1);
    }
  }

  /** `b` is one above `created / sends`, rounded down, or all that is missing if that is less. */
  predicate OneAboveMean(b: nat, created: nat, sends: nat, missing: nat) {
    1 <= b <= missing && (b - 1) * sends <= created && (b == missing || created < b * sends)
  }

  lemma MeanOf(x: nat, d: nat, missing: nat)
    requires d >= 1 && missing >= 1
    ensures OneAboveMean(Min(x / d + 1, missing), x, d, missing)
  {
    var q, b := x / d, Min(x / d + 1, missing);
    assert q * d <= x < (q + 1) * d;
    MulMono(b - 1, q, d);
  }

  /** The first batch is one above the limit or the number of accounts, later ones one above the mean success. */
  lemma BatchIsOneAboveMean(n: nat, maxFailures: nat, rpc: nat -> Response, k: nat)
    requires !Stopped(n, maxFailures, After(n, maxFailures, rpc, k))
    ensures var b, sends := BatchAt(n, maxFailures, rpc, k), SendsBefore(n, maxFailures, rpc, k);
            var created := |After(n, maxFailures, rpc, k).created|;
            if sends == 0 then created == 0 && b == Min(Min(n, 64) + 1, n)
            else OneAboveMean(b, created, sends, n - created)
  {
    AttemptsAreSends(n, maxFailures, rpc, k);
    CreatedBound(n, maxFailures, rpc, k);
    if SendsBefore(n, maxFailures, rpc, k) > 0 {
      var created := |After(n, maxFailures, rpc, k).created|;
      MeanOf(created, SendsBefore(n, maxFailures, rpc, k), n - created);
    }
  }

  /** Iteration `k` sent the transaction of account `a`, and it landed. */
  predicate LandedIn(n: nat, maxFailures: nat, rpc: nat -> Response, k: nat, a: Account) {
    && IsSend(n, maxFailures, rpc, k) && a.attempt == SendsBefore(n, maxFailures, rpc, k)
    && a.position < BatchAt(n, maxFailures, rpc, k) && a.position in rpc(k).positions
  }

  /** Accounts in the order they were sent: batch after batch, and in batch order. */
  ghost predicate InSendOrder(created: seq<Account>) {
    forall i, j :: 0 <= i < j < |created| ==> SentBefore(created[i], created[j])
  }

  predicate SentBefore(a: Account, b: Account) {
    a.attempt < b.attempt || (a.attempt == b.attempt && a.position < b.position)
  }

  lemma InOrderAccounts(attempt: nat, s: set<nat>)
    ensures InSendOrder(AccountsAt(attempt, InOrder(s)))
    ensures forall a :: a in AccountsAt(attempt, InOrder(s)) <==> a.attempt == attempt && a.position in s
  {
    var ks, accounts := InOrder(s), AccountsAt(attempt, InOrder(s));
    forall a ensures a in accounts <==> a.attempt == attempt && a.position in s {
      if a.attempt == attempt && a.position in s {
        assert a.position in ks;
        var i :| 0 <= i < |ks| && ks[i] == a.position;
        assert accounts[i] == a;
      }
      if a in accounts {
        var i :| 0 <= i < |accounts| && accounts[i] == a;
        assert ks[i] in ks;
      }
    }
  }

  lemma OrderedAppend(before: seq<Account>, more: seq<Account>, attempt: nat)
    requires InSendOrder(before) && InSendOrder(more)
    requires (forall a :: a in before ==> a.attempt < attempt) && forall a :: a in more ==> a.attempt == attempt
    ensures InSendOrder(before + more)
  {
    forall i, j | 0 <= i < j < |before + more| ensures SentBefore((before + more)[i], (before + more)[j]) {
      if i < |before| <= j {
        assert before[i] in before && more[j - |before|] in more;
      }
    }
  }

  /** What iteration `k` adds to the accounts. */
  lemma IterationCreates(n: nat, maxFailures: nat, rpc: nat -> Response, k: nat) returns (more: seq<Account>)
    ensures After(n, maxFailures, rpc, k + 1).created == After(n, maxFailures, rpc, k).created + more
    ensures InSendOrder(more) && forall a :: a in more <==> LandedIn(n, maxFailures, rpc, k, a)
  {
    var p := After(n, maxFailures, rpc, k);
    if IsSend(n, maxFailures, rpc, k) {
      AttemptsAreSends(n, maxFailures, rpc, k);
      var size := BatchAt(n, maxFailures, rpc, k);
      ConfirmedAreLanded(p.attempts, size, rpc(k).positions);
      InOrderAccounts(p.attempts, LandedPositions(size, rpc(k).positions));
      more := Confirmed(NewBatch(p.attempts, size), rpc(k).positions);
    } else {
      more := [];
      assert p.created + [] == p.created;
    }
  }

  /** Some iteration before `k` sent the transaction of `a`, and it landed. */
  ghost predicate LandedBy(n: nat, maxFailures: nat, rpc: nat -> Response, k: nat, a: Account) {
    exists j: nat :: j < k && LandedIn(n, maxFailures, rpc, j, a)
  }

  lemma LandedByNext(n: nat, maxFailures: nat, rpc: nat -> Response, k: nat, a: Account)
    ensures LandedBy(n, maxFailures, rpc, k + 1, a)
            <==> LandedBy(n, maxFailures, rpc, k, a) || LandedIn(n, maxFailures, rpc, k, a)
  {}

  /** `created` are the accounts landed before iteration `k`, in the order they were sent. */
  ghost predicate AreLanded(created: seq<Account>, n: nat, maxFailures: nat, rpc: nat -> Response, k: nat) {
    && InSendOrder(created)
    && (forall a :: a in created <==> LandedBy(n, maxFailures, rpc, k, a))
    && forall a :: a in created ==> a.attempt < SendsBefore(n, maxFailures, rpc, k)
  }

  lemma LandedSend(n: nat, maxFailures: nat, rpc: nat -> Response, k: nat, a: Account)
    requires LandedIn(n, maxFailures, rpc, k, a)
    ensures a.attempt == SendsBefore(n, maxFailures, rpc, k) < SendsBefore(n, maxFailures, rpc, k + 1)
  {}

  lemma AreLandedAppend(before: seq<Account>, more: seq<Account>,
                        n: nat, maxFailures: nat, rpc: nat -> Response, k: nat)
    requires AreLanded(before, n, maxFailures, rpc, k) && InSendOrder(more)
    requires forall a :: a in more <==> LandedIn(n, maxFailures, rpc, k, a)
    ensures AreLanded(before + more, n, maxFailures, rpc, k + 1)
  {
    forall a | a in more
      ensures a.attempt == SendsBefore(n, maxFailures, rpc, k) < SendsBefore(n, maxFailures, rpc, k + 1)
    {
      LandedSend(n, maxFailures, rpc, k, a);
    }
    OrderedAppend(before, more, SendsBefore(n, maxFailures, rpc, k));
    forall a ensures a in before + more <==> LandedBy(n, maxFailures, rpc, k + 1, a) {
      LandedByNext(n, maxFailures, rpc, k, a);
    }
    assert SendsBefore(n, maxFailures, rpc, k) <= SendsBefore(n, maxFailures, rpc, k + 1);
  }

  /**
   The accounts a run has created after `k` iterations: of every batch sent until then exactly those whose
   transaction landed, batch after batch and in batch order.
   */
  lemma {:induction false} CreatedAreLanded(n: nat, maxFailures: nat, rpc: nat -> Response, k: nat)
    ensures AreLanded(After(n, maxFailures, rpc, k).created, n, maxFailures, rpc, k)
  {
    if k == 0 {
      NoneLandedYet(n, maxFailures, rpc);
    } else {
      CreatedAreLanded(n, maxFailures, rpc, k - 1);
      MoreAreLanded(n, maxFailures, rpc, k - 1, After(n, maxFailures, rpc, k - 1).created);
    }
  }

  lemma NoneLandedYet(n: nat, maxFailures: nat, rpc: nat -> Response)
    ensures AreLanded([], n, maxFailures, rpc, 0)
  {}

  lemma MoreAreLanded(n: nat, maxFailures: nat, rpc: nat -> Response, k: nat, before: seq<Account>)
    requires before == After(n, maxFailures, rpc, k).created && AreLanded(before, n, maxFailures, rpc, k)
    ensures AreLanded(After(n, maxFailures, rpc, k + 1).created, n, maxFailures, rpc, k + 1)
  {
    var more := IterationCreates(n, maxFailures, rpc, k);
    AreLandedAppend(before, more, n, maxFailures, rpc, k);
  }

  // ----- the loop itself

  /**
   `create_accounts`: exactly the accounts whose transaction landed, in the order they were sent; never more
   than asked for, and fewer only after `maxFailures` fruitless iterations in a row.
   */
  method CreateAccounts(n: nat, maxFailures: nat, rpc: nat -> Response)
    returns (created: seq<Account>, iterations: nat)
    ensures iterations <= IterationLimit(n, maxFailures)
    ensures var p := After(n, maxFailures, rpc, iterations);
            created == p.created && Stopped(n, maxFailures, p)
    ensures |created| <= n && InSendOrder(created)
    ensures forall a :: a in created <==> LandedBy(n, maxFailures, rpc, iterations, a)
    ensures |created| < n ==> Idle(n, maxFailures, rpc, iterations, maxFailures)
  {
    created, iterations := [], 0;
    var attempts, failures := 0, 0;
    while |created| < n
      invariant After(n, maxFailures, rpc, iterations) == Progress(created, attempts, failures)
      invariant iterations == 0 || !Stopped(n, maxFailures, After(n, maxFailures, rpc, iterations - 1))
      invariant failures <= maxFailures
      decreases IterationLimit(n, maxFailures) - iterations
    {
      if failures >= maxFailures {
        break;
      }
      StillRunning(n, maxFailures, rpc, iterations);
      var batchSize := BatchSize(n, |created|, attempts);
      match rpc(iterations) {
        case NoBlockhash =>
          failures := failures + 1;
        case Landed(positions) =>
          var landed := Confirmed(NewBatch(attempts, batchSize), positions);
          failures := if landed == [] then failures + 1 else 0;
          created := created + landed;
          attempts := attempts + 1;
      }
      iterations := iterations + 1;
    }
    CreatedAreLanded(n, maxFailures, rpc, iterations);
    FailuresAreIdle(n, maxFailures, rpc, iterations);
    EndsInTime(n, maxFailures, rpc, iterations);
  }

  lemma StillRunning(n: nat, maxFailures: nat, rpc: nat -> Response, k: nat)
    requires !Stopped(n, maxFailures, After(n, maxFailures, rpc, k))
    ensures k < IterationLimit(n, maxFailures)
  {
    if k >= IterationLimit(n, maxFailures) {
      StopsInTime(n, maxFailures, rpc);
      RunningBefore(n, maxFailures, rpc, IterationLimit(n, maxFailures), k);
    }
  }

  lemma EndsInTime(n: nat, maxFailures: nat, rpc: nat -> Response, k: nat)
    requires k == 0 || !Stopped(n, maxFailures, After(n, maxFailures, rpc, k - 1))
    ensures k <= IterationLimit(n, maxFailures)
  {
    if k > 0 {
      StillRunning(n, maxFailures, rpc, k - 1);
    }
  }

  datatype CreateError = CreateAccountFailure

  /** At iteration `k` accounts are missing and the last `maxFailures` iterations created none. */
  ghost predicate GivesUpAt(n: nat, maxFailures: nat, rpc: nat -> Response, k: nat) {
    && k <= IterationLimit(n, maxFailures) && |After(n, maxFailures, rpc, k).created| < n
    && Idle(n, maxFailures, rpc, k, maxFailures)
  }

  /**
   `AccountsCreator::create`, the authority's balance being sufficient: it succeeds with the accounts of the
   whole run, those whose transaction landed, if and only if the RPC node never fails a hundred iterations in a
   row before all of them exist. Of a run that falls short it saves the accounts there are, if any.
   */
  method Create(numPayers: nat, rpc: nat -> Response)
    returns (r: Result<seq<Account>, CreateError>, saved: Option<seq<Account>>)
    ensures var m := 100;
            var made := After(numPayers, m, rpc, IterationLimit(numPayers, m)).created;
            && (r.Err? <==> exists k: nat :: GivesUpAt(numPayers, m, rpc, k))
            && (r.Ok? ==> r.value == made && |made| == numPayers)
            && (r.Err? ==> |made| < numPayers)
            && saved == (if r.Err? && made != [] then Some(made) else None)
            && InSendOrder(made)
            && forall a :: a in made <==> LandedBy(numPayers, m, rpc, IterationLimit(numPayers, m), a)
  {
    var m := MAX_CONTINUOUS_FAILED_ATTEMPTS;
    var payers, iterations := CreateAccounts(numPayers, m, rpc);
    StoppedForGood(numPayers, m, rpc, iterations, IterationLimit(numPayers, m));
    CreatedAreLanded(numPayers, m, rpc, IterationLimit(numPayers, m));
    saved := None;
    if |payers| != numPayers {
      assert GivesUpAt(numPayers, m, rpc, iterations);
      if payers != [] {
        saved := Some(payers);
      }
      r := Err(CreateAccountFailure);
    } else {
      forall k: nat ensures !GivesUpAt(numPayers, m, rpc, k) {
        if |After(numPayers, m, rpc, k).created| < numPayers {
          NotIdleBeforeSuccess(numPayers, m, rpc, k, iterations);
        }
      }
      r := Ok(payers);
    }
  }

  lemma {:induction false} StoppedForGood(n: nat, maxFailures: nat, rpc: nat -> Response, j: nat, k: nat)
    requires j <= k && Stopped(n, maxFailures, After(n, maxFailures, rpc, j))
    ensures After(n, maxFailures, rpc, k) == After(n, maxFailures, rpc, j)
    decreases k - j
  {
    if j < k {
      StoppedForGood(n, maxFailures, rpc, j, k - 1);
    }
  }

  /** A run that ends with all accounts was never idle for `maxFailures` iterations on the way. */
  lemma NotIdleBeforeSuccess(n: nat, maxFailures: nat, rpc: nat -> Response, k: nat, done: nat)
    requires maxFailures >= 1 && |After(n, maxFailures, rpc, done).created| == n
    requires |After(n, maxFailures, rpc, k).created| < n
    ensures !Idle(n, maxFailures, rpc, k, maxFailures)
  {
    if Stopped(n, maxFailures, After(n, maxFailures, rpc, k)) {
      if k <= done {
        StoppedForGood(n, maxFailures, rpc, k, done);
      } else {
        StoppedForGood(n, maxFailures, rpc, done, k);
      }
      assert false;
    }
    if k > 0 {
      RunningBefore(n, maxFailures, rpc, k - 1, k);
    }
    FailuresAreIdle(n, maxFailures, rpc, k);
    var f := After(n, maxFailures, rpc, k).failures;
    IdleShorter(n, maxFailures, rpc, k, maxFailures, f + 1);
  }
}
