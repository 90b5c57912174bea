/** The loop that polls the latest blockhash, publishes changes, and gives up when it is stuck. */
module BlockhashUpdater {
  import opened Wrappers
  import opened Listing

  type Hash = nat

  const DEFAULT_HASH: Hash := 0

  /** One turn: whether receivers are left, the RPC response, whether publishing fails, and the clock readings. */
  datatype Turn = Turn(closed: bool, response: Option<Hash>, sendFails: bool, publishedAt: nat, checkedAt: nat)

  datatype Outcome = Closed | Stuck | Running

  // ----- what the responses say

  /** The last successful response, or the default hash. */
  function LastHash(turns: seq<Turn>): Hash {
    if turns == [] then DEFAULT_HASH
    else if turns[|turns| - 1].response.Some? then turns[|turns| - 1].response.value
    else LastHash(turns[..|turns| - 1])
  }

  predicate Changes(turns: seq<Turn>, k: nat)
    requires k < |turns|
  {
    turns[k].response.Some? && turns[k].response.value != LastHash(turns[..k])
  }

  /** The successful responses with repetitions of the previous one left out. */
  function ChangedHashes(turns: seq<Turn>): seq<Hash> {
    if turns == [] then []
    else ChangedHashes(turns[..|turns| - 1])
         + if Changes(turns, |turns| - 1) then [turns[|turns| - 1].response.value] else []
  }

  /** When the hash last changed, or when the loop started. */
  function LastChange(turns: seq<Turn>, start: nat): nat {
    if turns == [] then start
    else if Changes(turns, |turns| - 1) then turns[|turns| - 1].publishedAt
    else LastChange(turns[..|turns| - 1], start)
  }

  // ----- when the loop ends

  /** At the end of turn `k` the hash has not changed for longer than the limit. */
  predicate StuckAt(turns: seq<Turn>, k: nat, start: nat, limit: nat)
    requires k < |turns|
  {
    turns[k].checkedAt > LastChange(turns[..k + 1], start) + limit
  }

  /** Turn `k` has a new hash to publish and nobody to publish it to. */
  predicate FailsAt(turns: seq<Turn>, k: nat)
    requires k < |turns|
  {
    Changes(turns, k) && turns[k].sendFails
  }

  /** The loop goes on after turn `k`. */
  predicate Survives(turns: seq<Turn>, k: nat, start: nat, limit: nat)
    requires k < |turns|
  {
    !turns[k].closed && !FailsAt(turns, k) && !StuckAt(turns, k, start, limit)
  }

  /** The first `k` turns pass without ending the loop. */
  ghost predicate RunsFor(turns: seq<Turn>, k: nat, start: nat, limit: nat) {
    k <= |turns| && forall j: nat :: j < k ==> Survives(turns, j, start, limit)
  }

  /**
   How a loop ends: `Running` if no turn ends it, `Closed` if a turn begins without receivers or fails to
   publish, `Stuck` if a turn that does neither ends too long after the last change. `taken` turns polled.
   */
  ghost predicate EndsWith(turns: seq<Turn>, start: nat, limit: nat, outcome: Outcome, taken: nat) {
    match outcome
    case Running => taken == |turns| && RunsFor(turns, taken, start, limit)
    case Closed =>
      || (taken < |turns| && RunsFor(turns, taken, start, limit) && turns[taken].closed)
      || (0 < taken <= |turns| && RunsFor(turns, taken - 1, start, limit)
          && !turns[taken - 1].closed && FailsAt(turns, taken - 1))
    case Stuck =>
      && 0 < taken <= |turns| && RunsFor(turns, taken - 1, start, limit)
      && !turns[taken - 1].closed && !FailsAt(turns, taken - 1) && StuckAt(turns, taken - 1, start, limit)
  }

  /** What has been published by then: every changed hash, but for the one whose publication failed. */
  function PublishedBy(turns: seq<Turn>, taken: nat): seq<Hash>
    requires taken <= |turns|
  {
    if taken > 0 && FailsAt(turns, taken - 1) then ChangedHashes(turns[..taken - 1]) else ChangedHashes(turns[..taken])
  }

  /** The turn that ends the loop tells the outcome. */
  lemma EndPoint(turns: seq<Turn>, start: nat, limit: nat, outcome: Outcome, taken: nat) returns (k: nat)
    requires EndsWith(turns, start, limit, outcome, taken)
    ensures RunsFor(turns, k, start, limit)
    ensures k == |turns| ==> outcome == Running && taken == k
    ensures k < |turns| ==>
              && !Survives(turns, k, start, limit)
              && outcome == (if turns[k].closed || FailsAt(turns, k) then Closed else Stuck)
              && taken == if turns[k].closed then k else k + 1
  {
    k := if outcome == Running
            || (outcome == Closed && taken < |turns| && RunsFor(turns, taken, start, limit) && turns[taken].closed)
         then taken else taken - 1;
  }

  /** There is exactly one way a loop can end. */
  lemma EndIsUnique(turns: seq<Turn>, start: nat, limit: nat, o1: Outcome, n1: nat, o2: Outcome, n2: nat)
    requires EndsWith(turns, start, limit, o1, n1) && EndsWith(turns, start, limit, o2, n2)
    ensures o1 == o2 && n1 == n2
  {
    var k1 := EndPoint(turns, start, limit, o1, n1);
    var k2 := EndPoint(turns, start, limit, o2, n2);
    assert k1 == k2;
  }

  // ----- what the specification means

  /** Turn `j` is the last before `k` that brought a response. */
  ghost predicate LastResponse(turns: seq<Turn>, k: nat, j: nat) {
    j < k <= |turns| && turns[j].response.Some? && forall i :: j < i < k ==> turns[i].response.None?
  }

  /** The current hash is the last one a turn brought, and the default until one does. */
  lemma {:induction false} LastHashMeaning(turns: seq<Turn>, k: nat)
    requires k <= |turns|
    ensures forall j: nat :: LastResponse(turns, k, j) ==> LastHash(turns[..k]) == turns[j].response.value
    ensures (forall i: nat :: i < k ==> turns[i].response.None?) ==> LastHash(turns[..k]) == DEFAULT_HASH
  {
    if k > 0 {
      LastHashMeaning(turns, k - 1);
      assert turns[..k][..k - 1] == turns[..k - 1];
      if turns[k - 1].response.None? {
        forall j: nat | LastResponse(turns, k, j) ensures LastResponse(turns, k - 1, j) {}
      }
    }
  }

  /** Turn `j` is the last up to `k` that changed the hash. */
  ghost predicate LastChangeAt(turns: seq<Turn>, k: nat, j: nat) {
    j < k <= |turns| && Changes(turns, j) && forall i: nat :: j < i < k ==> !Changes(turns, i)
  }

  lemma {:induction false} LastChangeMeaning(turns: seq<Turn>, k: nat, j: nat, start: nat)
    requires LastChangeAt(turns, k, j)
    ensures LastChange(turns[..k], start) == turns[j].publishedAt
  {
    LastChangeNext(turns, k - 1, start);
    if j < k - 1 {
      LastChangeMeaning(turns, k - 1, j, start);
    }
  }

  lemma {:induction false} NoChangeMeaning(turns: seq<Turn>, k: nat, start: nat)
    requires k <= |turns| && forall i: nat :: i < k ==> !Changes(turns, i)
    ensures LastChange(turns[..k], start) == start
  {
    if k > 0 {
      LastChangeNext(turns, k - 1, start);
      NoChangeMeaning(turns, k - 1, start);
    }
  }

  lemma LastChangeNext(turns: seq<Turn>, k: nat, start: nat)
    requires k < |turns|
    ensures LastChange(turns[..k + 1], start)
            == if Changes(turns, k) then turns[k].publishedAt else LastChange(turns[..k], start)
  {
    assert turns[..k + 1][..k] == turns[..k];
  }

  /**
   A turn ends stuck exactly when more than the limit has passed since the last change of the hash, or since the
   start if it has never changed; so a loop whose hash changed within the limit is never stuck.
   */
  lemma StuckMeaning(turns: seq<Turn>, k: nat, start: nat, limit: nat)
    requires k < |turns|
    ensures forall j: nat :: LastChangeAt(turns, k + 1, j) ==>
              (StuckAt(turns, k, start, limit) <==> turns[j].publishedAt + limit < turns[k].checkedAt)
    ensures (forall i: nat :: i <= k ==> !Changes(turns, i)) ==>
              (StuckAt(turns, k, start, limit) <==> start + limit < turns[k].checkedAt)
  {
    forall j: nat | LastChangeAt(turns, k + 1, j)
      ensures LastChange(turns[..k + 1], start) == turns[j].publishedAt
    {
      LastChangeMeaning(turns, k + 1, j, start);
    }
    if forall i: nat :: i <= k ==> !Changes(turns, i) {
      NoChangeMeaning(turns, k + 1, start);
    }
  }

  ghost function ChangingTurns(turns: seq<Turn>): set<nat> {
    set k: nat | k < |turns| && Changes(turns, k)
  }

  ghost function HashesAt(ks: seq<nat>, turns: seq<Turn>): seq<Hash>
    requires forall k :: k in ks ==> k < |turns| && turns[k].response.Some?
  {
    seq(|ks|, i requires 0 <= i < |ks| => assert ks[i] in ks; turns[ks[i]].response.value)
  }

  /** The published hashes are those of the turns that change the hash, each once and in order. */
  lemma {:induction false} ChangedHashesAreAll(turns: seq<Turn>)
    ensures ChangedHashes(turns) == HashesAt(InOrder(ChangingTurns(turns)), turns)
  {
    if turns == [] {
      assert ChangingTurns(turns) == {};
    } else {
      var n := |turns| - 1;
      var before := turns[..n];
      ChangedHashesAreAll(before);
      var old', all := ChangingTurns(before), ChangingTurns(turns);
      forall k: nat | k < n ensures Changes(before, k) <==> Changes(turns, k) {
        assert before[..k] == turns[..k];
      }
      HashesSnoc(InOrder(old'), before, turns[n]);
      assert turns == before + [turns[n]];
      if Changes(turns, n) {
        InOrderSnoc(old', n, all);
      } else {
        assert all == old';
      }
    }
  }

  lemma HashesSnoc(ks: seq<nat>, turns: seq<Turn>, turn: Turn)
    requires forall k :: k in ks ==> k < |turns| && turns[k].response.Some?
    ensures HashesAt(ks, turns + [turn]) == HashesAt(ks, turns)
    ensures turn.response.Some? ==>
              HashesAt(ks + [|turns|], turns + [turn]) == HashesAt(ks, turns) + [turn.response.value]
  {
    assert forall k :: k in ks ==> (turns + [turn])[k] == turns[k];
  }

  /** Published hashes never repeat their predecessor, the first differs from the default, the last is current. */
  lemma {:induction false} PublishedNeverStutters(turns: seq<Turn>)
    ensures var p := ChangedHashes(turns);
            && (forall i :: 0 < i < |p| ==> p[i] != p[i - 1])
            && (p != [] ==> p[0] != DEFAULT_HASH)
            && LastHash(turns) == if p == [] then DEFAULT_HASH else p[|p| - 1]
  {
    if turns != [] {
      PublishedNeverStutters(turns[..|turns| - 1]);
    }
  }

  lemma OneMore(turns: seq<Turn>, k: nat, start: nat)
    requires k < |turns|
    ensures var t, before, more := turns[k], turns[..k], turns[..k + 1];
            var changed := t.response.Some? && t.response.value != LastHash(before);
            && LastHash(more) == (if t.response.Some? then t.response.value else LastHash(before))
            && LastChange(more, start) == (if changed then t.publishedAt else LastChange(before, start))
            && ChangedHashes(more) == ChangedHashes(before) + if changed then [t.response.value] else []
  {
    assert turns[..k + 1][..k] == turns[..k];
  }

  class BlockhashUpdater {
    const stuckInterval: nat
    var lastBlockhash: Hash
    var published: seq<Hash>

    constructor (stuckInterval: nat)
      ensures this.stuckInterval == stuckInterval && lastBlockhash == DEFAULT_HASH && published == []
    {
      this.stuckInterval, lastBlockhash, published := stuckInterval, DEFAULT_HASH, [];
    }

    /**
     `run`, over the turns the environment provides: it ends in the one way those turns allow, having
     published every changed hash once and in order.
     */
    method Run(turns: seq<Turn>, start: nat) returns (outcome: Outcome, taken: nat)
      requires lastBlockhash == DEFAULT_HASH && published == []
      modifies this
      ensures EndsWith(turns, start, stuckInterval, outcome, taken)
      ensures taken <= |turns| && lastBlockhash == LastHash(turns[..taken])
      ensures published == PublishedBy(turns, taken)
    {
      var lastUpdated := start;
      taken := 0;
      while taken < |turns|
        invariant taken <= |turns|
        invariant lastBlockhash == LastHash(turns[..taken]) && lastUpdated == LastChange(turns[..taken], start)
        invariant published == ChangedHashes(turns[..taken])
        invariant RunsFor(turns, taken, start, stuckInterval)
        invariant taken > 0 ==> !FailsAt(turns, taken - 1)
      {
        var turn := turns[taken];
        if turn.closed {
          return Closed, taken;
        }
        OneMore(turns, taken, start);
        taken := taken + 1;
        if turn.response.Some? && turn.response.value != lastBlockhash {
          lastBlockhash := turn.response.value;
          if turn.sendFails {
            return Closed, taken;
          }
          published := published + [turn.response.value];
          lastUpdated := turn.publishedAt;
        }
        if turn.checkedAt > lastUpdated + stuckInterval {
          return Stuck, taken;
        }
      }
      outcome := Running;
    }
  }
}
