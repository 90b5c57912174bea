/** Delivery of one batch to the upcoming leaders: first without blocking to all, then blocking to one. */
module Broadcaster {
  import opened Listing

  type Address = nat
  type Batch = nat

  /** What an attempt to enqueue comes back with; a dropped receiver also removes the worker from the cache. */
  datatype Outcome = Accepted | FullChannel | Shutdown | ReceiverDropped

  datatype Attempt = Attempt(leader: Address, blocking: bool, outcome: Outcome)

  type Queues = map<Address, seq<Batch>>

  // ----- the attempts of the two phases

  function LiveAfter(live: set<Address>, leader: Address, o: Outcome): set<Address> {
    if o == ReceiverDropped then live - {leader} else live
  }

  /** One attempt at every leader whose worker is still cached when its turn comes. */
  function Tries(leaders: seq<Address>, outcomes: seq<Outcome>, live: set<Address>): seq<Attempt>
    requires |outcomes| == |leaders|
  {
    if leaders == [] then []
    else if leaders[0] !in live then Tries(leaders[1..], outcomes[1..], live)
    else [Attempt(leaders[0], false, outcomes[0])]
         + Tries(leaders[1..], outcomes[1..], LiveAfter(live, leaders[0], outcomes[0]))
  }

  /** The same with blocking sends, up to the first that is accepted. */
  function Sends(leaders: seq<Address>, outcomes: seq<Outcome>, live: set<Address>): seq<Attempt>
    requires |outcomes| == |leaders|
  {
    if leaders == [] then []
    else if leaders[0] !in live then Sends(leaders[1..], outcomes[1..], live)
    else if outcomes[0] == Accepted then [Attempt(leaders[0], true, Accepted)]
    else [Attempt(leaders[0], true, outcomes[0])]
         + Sends(leaders[1..], outcomes[1..], LiveAfter(live, leaders[0], outcomes[0]))
  }

  predicate Delivered(log: seq<Attempt>) {
    exists i :: 0 <= i < |log| && log[i].outcome == Accepted
  }

  /** The worker queues after a series of attempts: only accepted attempts enqueue, only dropped receivers remove. */
  function Replay(q: Queues, log: seq<Attempt>, batch: Batch): Queues {
    if log == [] then q
    else
      var before, last := Replay(q, log[..|log| - 1], batch), log[|log| - 1];
      match last.outcome
      case Accepted => if last.leader in before then before[last.leader := before[last.leader] + [batch]] else before
      case ReceiverDropped => before - {last.leader}
      case _ => before
  }

  function AcceptedBy(log: seq<Attempt>, a: Address): nat {
    if log == [] then 0
    else
      var last := log[|log| - 1];
      AcceptedBy(log[..|log| - 1], a) + if last.leader == a && last.outcome == Accepted then 1 else 0
  }

  function Copies(batch: Batch, n: nat): seq<Batch> {
    seq(n, _ => batch)
  }

  /** A worker still cached at the end holds its old queue and one copy of the batch per accepted attempt. */
  lemma {:induction false} QueueGrowth(q: Queues, log: seq<Attempt>, batch: Batch, a: Address)
    ensures a in Replay(q, log, batch) ==>
              a in q && Replay(q, log, batch)[a] == q[a] + Copies(batch, AcceptedBy(log, a))
  {
    if log != [] {
      QueueGrowth(q, log[..|log| - 1], batch, a);
      var n := AcceptedBy(log[..|log| - 1], a);
      assert Copies(batch, n + 1) == Copies(batch, n) + [batch];
      if a in q {
        assert q[a] + Copies(batch, n) + [batch] == q[a] + (Copies(batch, n) + [batch]);
      }
    } else {
      assert Copies(batch, 0) == [];
      if a in q {
        assert q[a] + [] == q[a];
      }
    }
  }

  // ----- what the phases promise

  ghost predicate EndsAtAccepted(log: seq<Attempt>) {
    forall i :: 0 <= i < |log| - 1 ==> log[i].outcome != Accepted
  }

  /** Blocking sends end with the first accepted one, so the second phase enqueues at most once. */
  lemma {:induction false} OnlyLastIsAccepted(leaders: seq<Address>, outcomes: seq<Outcome>, live: set<Address>)
    requires |outcomes| == |leaders|
    ensures EndsAtAccepted(Sends(leaders, outcomes, live))
  {
    if leaders != [] {
      if leaders[0] !in live {
        OnlyLastIsAccepted(leaders[1..], outcomes[1..], live);
      } else if outcomes[0] != Accepted {
        OnlyLastIsAccepted(leaders[1..], outcomes[1..], LiveAfter(live, leaders[0], outcomes[0]));
      }
    }
  }

  /** Whether a leader's worker is still cached at its turn `i`. */
  ghost predicate CachedAt(leaders: seq<Address>, outcomes: seq<Outcome>, live: set<Address>, i: nat)
    requires |outcomes| == |leaders|
  {
    && i < |leaders| && leaders[i] in live
    && forall j :: 0 <= j < i && leaders[j] == leaders[i] ==> outcomes[j] != ReceiverDropped
  }

  lemma CachedTail(leaders: seq<Address>, outcomes: seq<Outcome>, live: set<Address>, i: nat)
    requires |outcomes| == |leaders| && 0 < i < |leaders|
    ensures var rest := if leaders[0] in live then LiveAfter(live, leaders[0], outcomes[0]) else live;
            CachedAt(leaders, outcomes, live, i) <==> CachedAt(leaders[1..], outcomes[1..], rest, i - 1)
  {
    var rest := if leaders[0] in live then LiveAfter(live, leaders[0], outcomes[0]) else live;
    if CachedAt(leaders[1..], outcomes[1..], rest, i - 1) {
      forall j | 0 <= j < i && leaders[j] == leaders[i] ensures outcomes[j] != ReceiverDropped {
        if j > 0 {
          assert leaders[1..][j - 1] == leaders[j] && outcomes[1..][j - 1] == outcomes[j];
        }
      }
    }
    if CachedAt(leaders, outcomes, live, i) {
      assert forall j :: 0 <= j < i - 1 ==> leaders[1..][j] == leaders[j + 1] && outcomes[1..][j] == outcomes[j + 1];
    }
  }

  /** The first phase delivers exactly if some leader, cached at its turn, accepts. */
  lemma {:induction false} TriesDeliver(leaders: seq<Address>, outcomes: seq<Outcome>, live: set<Address>)
    requires |outcomes| == |leaders|
    ensures Delivered(Tries(leaders, outcomes, live))
            <==> exists i: nat :: CachedAt(leaders, outcomes, live, i) && outcomes[i] == Accepted
  {
    if leaders != [] {
      var rest := if leaders[0] in live then LiveAfter(live, leaders[0], outcomes[0]) else live;
      TriesDeliver(leaders[1..], outcomes[1..], rest);
      forall i: nat | 0 < i < |leaders|
        ensures CachedAt(leaders, outcomes, live, i) <==> CachedAt(leaders[1..], outcomes[1..], rest, i - 1)
      {
        CachedTail(leaders, outcomes, live, i);
      }
      var t, u := Tries(leaders, outcomes, live), Tries(leaders[1..], outcomes[1..], rest);
      if leaders[0] in live {
        assert t == [Attempt(leaders[0], false, outcomes[0])] + u;
        DeliveredCons(t[0], u);
        assert CachedAt(leaders, outcomes, live, 0);
      }
      if exists i: nat :: CachedAt(leaders, outcomes, live, i) && outcomes[i] == Accepted {
        var i: nat :| CachedAt(leaders, outcomes, live, i) && outcomes[i] == Accepted;
        if i > 0 {
          assert CachedAt(leaders[1..], outcomes[1..], rest, i - 1);
        }
      }
      if exists i: nat :: CachedAt(leaders[1..], outcomes[1..], rest, i) && outcomes[1..][i] == Accepted {
        var i: nat :| CachedAt(leaders[1..], outcomes[1..], rest, i) && outcomes[1..][i] == Accepted;
        assert CachedAt(leaders, outcomes, live, i + 1);
      }
    }
  }

  lemma DeliveredCons(a: Attempt, log: seq<Attempt>)
    ensures Delivered([a] + log) <==> a.outcome == Accepted || Delivered(log)
  {
    var all := [a] + log;
    if Delivered(log) {
      var i :| 0 <= i < |log| && log[i].outcome == Accepted;
      assert all[i + 1].outcome == Accepted;
    }
    if a.outcome == Accepted {
      assert all[0].outcome == Accepted;
    }
    if Delivered(all) {
      var i :| 0 <= i < |all| && all[i].outcome == Accepted;
      if i > 0 {
        assert log[i - 1].outcome == Accepted;
      }
    }
  }

  /** The first leader, in order, that is cached at its turn and accepts a blocking send. */
  ghost predicate FirstAccepting(leaders: seq<Address>, outcomes: seq<Outcome>, live: set<Address>, i: nat)
    requires |outcomes| == |leaders|
  {
    && CachedAt(leaders, outcomes, live, i) && outcomes[i] == Accepted
    && forall j: nat :: j < i && CachedAt(leaders, outcomes, live, j) ==> outcomes[j] != Accepted
  }

  /** The second phase delivers to the first accepting leader in order, and fails only if there is none. */
  lemma {:induction false} SendsDeliverToFirst(leaders: seq<Address>, outcomes: seq<Outcome>, live: set<Address>)
    requires |outcomes| == |leaders|
    ensures var s := Sends(leaders, outcomes, live);
            && (forall i: nat :: FirstAccepting(leaders, outcomes, live, i) ==>
                  s != [] && s[|s| - 1] == Attempt(leaders[i], true, Accepted))
            && (Delivered(s) ==> exists i: nat :: FirstAccepting(leaders, outcomes, live, i))
  {
    if leaders != [] {
      var rest := if leaders[0] in live then LiveAfter(live, leaders[0], outcomes[0]) else live;
      var s, u := Sends(leaders, outcomes, live), Sends(leaders[1..], outcomes[1..], rest);
      SendsDeliverToFirst(leaders[1..], outcomes[1..], rest);
      forall i: nat | 0 < i < |leaders|
        ensures CachedAt(leaders, outcomes, live, i) <==> CachedAt(leaders[1..], outcomes[1..], rest, i - 1)
      {
        CachedTail(leaders, outcomes, live, i);
      }
      if leaders[0] in live && outcomes[0] == Accepted {
        assert CachedAt(leaders, outcomes, live, 0);
        assert FirstAccepting(leaders, outcomes, live, 0);
      } else {
        forall i: nat | FirstAccepting(leaders, outcomes, live, i)
          ensures i > 0 && FirstAccepting(leaders[1..], outcomes[1..], rest, i - 1)
        {
          forall j: nat | j < i - 1 && CachedAt(leaders[1..], outcomes[1..], rest, j)
            ensures outcomes[1..][j] != Accepted
          {
            assert CachedAt(leaders, outcomes, live, j + 1);
          }
        }
        if leaders[0] in live {
          DeliveredCons(Attempt(leaders[0], true, outcomes[0]), u);
        }
        if Delivered(u) {
          var i: nat :| FirstAccepting(leaders[1..], outcomes[1..], rest, i);
          forall j: nat | j < i + 1 && CachedAt(leaders, outcomes, live, j) ensures outcomes[j] != Accepted {
            if j > 0 {
              assert CachedAt(leaders[1..], outcomes[1..], rest, j - 1);
            }
          }
          assert CachedAt(leaders, outcomes, live, i + 1);
          assert FirstAccepting(leaders, outcomes, live, i + 1);
        }
      }
    }
  }

  // ----- which attempts are made

  lemma CachedSnoc(leaders: seq<Address>, outcomes: seq<Outcome>, live: set<Address>, x: Address, o: Outcome, i: nat)
    requires |outcomes| == |leaders| && i < |leaders|
    ensures CachedAt(leaders + [x], outcomes + [o], live, i) <==> CachedAt(leaders, outcomes, live, i)
  {
    var l, r := leaders + [x], outcomes + [o];
    assert forall j :: 0 <= j <= i ==> l[j] == leaders[j] && r[j] == outcomes[j];
  }

  lemma {:induction false} TriesSnoc(leaders: seq<Address>, outcomes: seq<Outcome>, live: set<Address>,
                                     x: Address, o: Outcome)
    requires |outcomes| == |leaders|
    ensures Tries(leaders + [x], outcomes + [o], live) ==
            Tries(leaders, outcomes, live)
            + if CachedAt(leaders + [x], outcomes + [o], live, |leaders|) then [Attempt(x, false, o)] else []
  {
    var l, r := leaders + [x], outcomes + [o];
    if leaders == [] {
      assert l[1..] == [] && r[1..] == [] && l[0] == x && r[0] == o;
    } else {
      var rest := if leaders[0] in live then LiveAfter(live, leaders[0], outcomes[0]) else live;
      assert l[1..] == leaders[1..] + [x] && r[1..] == outcomes[1..] + [o];
      TriesSnoc(leaders[1..], outcomes[1..], rest, x, o);
      CachedTail(l, r, live, |leaders|);
    }
  }

  /** The turns at which the leader's worker is cached. */
  ghost function CachedTurns(leaders: seq<Address>, outcomes: seq<Outcome>, live: set<Address>): set<nat>
    requires |outcomes| == |leaders|
  {
    set i: nat | i < |leaders| && CachedAt(leaders, outcomes, live, i)
  }

  /** Attempts at the leaders of the given turns. */
  ghost function AttemptsAt(ks: seq<nat>, leaders: seq<Address>, outcomes: seq<Outcome>, blocking: bool): seq<Attempt>
    requires |outcomes| == |leaders| && forall k :: k in ks ==> k < |leaders|
  {
    seq(|ks|, k requires 0 <= k < |ks| => assert ks[k] in ks; Attempt(leaders[ks[k]], blocking, outcomes[ks[k]]))
  }

  lemma AttemptsSnoc(ks: seq<nat>, leaders: seq<Address>, outcomes: seq<Outcome>, blocking: bool,
                     x: Address, o: Outcome)
    requires |outcomes| == |leaders| && forall k :: k in ks ==> k < |leaders|
    ensures AttemptsAt(ks, leaders + [x], outcomes + [o], blocking) == AttemptsAt(ks, leaders, outcomes, blocking)
    ensures AttemptsAt(ks + [|leaders|], leaders + [x], outcomes + [o], blocking)
            == AttemptsAt(ks, leaders, outcomes, blocking) + [Attempt(x, blocking, o)]
  {
    assert forall k :: k in ks ==> (leaders + [x])[k] == leaders[k] && (outcomes + [o])[k] == outcomes[k];
  }

  /** The first phase makes exactly one attempt per turn at which the leader's worker is cached, in order. */
  lemma {:induction false} TriesAreAll(leaders: seq<Address>, outcomes: seq<Outcome>, live: set<Address>)
    requires |outcomes| == |leaders|
    ensures Tries(leaders, outcomes, live)
            == AttemptsAt(InOrder(CachedTurns(leaders, outcomes, live)), leaders, outcomes, false)
  {
    if leaders == [] {
      assert CachedTurns(leaders, outcomes, live) == {};
    } else {
      var n := |leaders| - 1;
      var l, r, x, o := leaders[..n], outcomes[..n], leaders[n], outcomes[n];
      assert leaders == l + [x] && outcomes == r + [o];
      TriesAreAll(l, r, live);
      TriesSnoc(l, r, live, x, o);
      var before, turns := CachedTurns(l, r, live), CachedTurns(leaders, outcomes, live);
      forall i: nat | i < n ensures i in turns <==> i in before {
        CachedSnoc(l, r, live, x, o, i);
      }
      AttemptsSnoc(InOrder(before), l, r, false, x, o);
      if n in turns {
        InOrderSnoc(before, n, turns);
      } else {
        assert turns == before;
      }
    }
  }

  /** The turns at which a blocking send is made: the worker is cached and no earlier send was accepted. */
  ghost predicate BlocksAt(leaders: seq<Address>, outcomes: seq<Outcome>, live: set<Address>, i: nat)
    requires |outcomes| == |leaders|
  {
    && CachedAt(leaders, outcomes, live, i)
    && forall j: nat :: j < i && CachedAt(leaders, outcomes, live, j) ==> outcomes[j] != Accepted
  }

  ghost function BlockingTurns(leaders: seq<Address>, outcomes: seq<Outcome>, live: set<Address>): set<nat>
    requires |outcomes| == |leaders|
  {
    set i: nat | i < |leaders| && BlocksAt(leaders, outcomes, live, i)
  }

  lemma BlocksTail(leaders: seq<Address>, outcomes: seq<Outcome>, live: set<Address>, i: nat)
    requires |outcomes| == |leaders| && 0 < i < |leaders| && !(leaders[0] in live && outcomes[0] == Accepted)
    ensures var rest := if leaders[0] in live then LiveAfter(live, leaders[0], outcomes[0]) else live;
            BlocksAt(leaders, outcomes, live, i) <==> BlocksAt(leaders[1..], outcomes[1..], rest, i - 1)
  {
    var rest := if leaders[0] in live then LiveAfter(live, leaders[0], outcomes[0]) else live;
    forall j: nat | 0 < j <= i
      ensures CachedAt(leaders, outcomes, live, j) <==> CachedAt(leaders[1..], outcomes[1..], rest, j - 1)
    {
      CachedTail(leaders, outcomes, live, j);
    }
    if BlocksAt(leaders, outcomes, live, i) {
      forall j: nat | j < i - 1 && CachedAt(leaders[1..], outcomes[1..], rest, j) ensures outcomes[1..][j] != Accepted {
        assert CachedAt(leaders, outcomes, live, j + 1);
      }
    }
    if BlocksAt(leaders[1..], outcomes[1..], rest, i - 1) {
      forall j: nat | j < i && CachedAt(leaders, outcomes, live, j) ensures outcomes[j] != Accepted {
        if j > 0 {
          assert CachedAt(leaders[1..], outcomes[1..], rest, j - 1);
        }
      }
    }
  }

  lemma {:induction false} SendsSnoc(leaders: seq<Address>, outcomes: seq<Outcome>, live: set<Address>,
                                     x: Address, o: Outcome)
    requires |outcomes| == |leaders|
    ensures Sends(leaders + [x], outcomes + [o], live) ==
            Sends(leaders, outcomes, live)
            + if BlocksAt(leaders + [x], outcomes + [o], live, |leaders|) then [Attempt(x, true, o)] else []
  {
    var l, r := leaders + [x], outcomes + [o];
    if leaders == [] {
      assert l[1..] == [] && r[1..] == [] && l[0] == x && r[0] == o;
    } else if leaders[0] in live && outcomes[0] == Accepted {
      assert CachedAt(l, r, live, 0);
      assert !BlocksAt(l, r, live, |leaders|);
    } else {
      var rest := if leaders[0] in live then LiveAfter(live, leaders[0], outcomes[0]) else live;
      assert l[1..] == leaders[1..] + [x] && r[1..] == outcomes[1..] + [o];
      SendsSnoc(leaders[1..], outcomes[1..], rest, x, o);
      BlocksTail(l, r, live, |leaders|);
    }
  }

  /** The second phase makes one blocking send per cached turn, in order, up to the first accepted one. */
  lemma {:induction false} SendsAreAll(leaders: seq<Address>, outcomes: seq<Outcome>, live: set<Address>)
    requires |outcomes| == |leaders|
    ensures Sends(leaders, outcomes, live)
            == AttemptsAt(InOrder(BlockingTurns(leaders, outcomes, live)), leaders, outcomes, true)
  {
    if leaders == [] {
      assert BlockingTurns(leaders, outcomes, live) == {};
    } else {
      var n := |leaders| - 1;
      var l, r, x, o := leaders[..n], outcomes[..n], leaders[n], outcomes[n];
      assert leaders == l + [x] && outcomes == r + [o];
      SendsAreAll(l, r, live);
      SendsSnoc(l, r, live, x, o);
      var before, turns := BlockingTurns(l, r, live), BlockingTurns(leaders, outcomes, live);
      forall i: nat | i < n ensures i in turns <==> i in before {
        BlocksSnoc(l, r, live, x, o, i);
      }
      AttemptsSnoc(InOrder(before), l, r, true, x, o);
      if n in turns {
        InOrderSnoc(before, n, turns);
      } else {
        assert turns == before;
      }
    }
  }

  lemma BlocksSnoc(leaders: seq<Address>, outcomes: seq<Outcome>, live: set<Address>, x: Address, o: Outcome, i: nat)
    requires |outcomes| == |leaders| && i < |leaders|
    ensures BlocksAt(leaders + [x], outcomes + [o], live, i) <==> BlocksAt(leaders, outcomes, live, i)
  {
    forall j: nat | j <= i
      ensures CachedAt(leaders + [x], outcomes + [o], live, j) <==> CachedAt(leaders, outcomes, live, j)
    {
      CachedSnoc(leaders, outcomes, live, x, o, j);
    }
  }

  // ----- what the phases do to the queues

  /** How many turns of leader `a` are accepted. */
  function AcceptedTurns(leaders: seq<Address>, outcomes: seq<Outcome>, a: Address): set<nat>
    requires |outcomes| == |leaders|
  {
    set i: nat | i < |leaders| && leaders[i] == a && outcomes[i] == Accepted
  }

  /** The worker of `a` reports, at some turn, that its receiver is gone. */
  ghost predicate DropsOut(leaders: seq<Address>, outcomes: seq<Outcome>, a: Address)
    requires |outcomes| == |leaders|
  {
    exists i: nat :: i < |leaders| && leaders[i] == a && outcomes[i] == ReceiverDropped
  }

  /**
   The effect of the first phase: exactly the workers whose receiver is gone leave the cache, and every other
   one gets one batch for each turn at which it accepts.
   */
  ghost predicate TriedAll(q: Queues, q': Queues, leaders: seq<Address>, outcomes: seq<Outcome>, batch: Batch)
    requires |outcomes| == |leaders|
  {
    && (forall a :: a in q' <==> a in q && !DropsOut(leaders, outcomes, a))
    && forall a :: a in q' && a in q ==> q'[a] == q[a] + Copies(batch, |AcceptedTurns(leaders, outcomes, a)|)
  }

  lemma TurnsSnoc(leaders: seq<Address>, outcomes: seq<Outcome>, x: Address, o: Outcome, a: Address)
    requires |outcomes| == |leaders|
    ensures |AcceptedTurns(leaders + [x], outcomes + [o], a)|
            == |AcceptedTurns(leaders, outcomes, a)| + if a == x && o == Accepted then 1 else 0
    ensures DropsOut(leaders + [x], outcomes + [o], a)
            <==> DropsOut(leaders, outcomes, a) || (a == x && o == ReceiverDropped)
  {
    var l, r, n := leaders + [x], outcomes + [o], |leaders|;
    var before, turns := AcceptedTurns(leaders, outcomes, a), AcceptedTurns(l, r, a);
    assert forall i :: 0 <= i < n ==> l[i] == leaders[i] && r[i] == outcomes[i];
    assert l[n] == x && r[n] == o;
    if a == x && o == Accepted {
      assert turns == before + {n};
    } else {
      assert turns == before;
    }
    if DropsOut(leaders, outcomes, a) {
      var i: nat :| i < n && leaders[i] == a && outcomes[i] == ReceiverDropped;
      assert l[i] == a && r[i] == ReceiverDropped;
    }
  }

  lemma {:induction false} TriesEffect(q: Queues, leaders: seq<Address>, outcomes: seq<Outcome>, batch: Batch)
    requires |outcomes| == |leaders|
    ensures TriedAll(q, Replay(q, Tries(leaders, outcomes, q.Keys), batch), leaders, outcomes, batch)
  {
    if leaders == [] {
      forall a | a in q ensures q[a] == q[a] + Copies(batch, |AcceptedTurns(leaders, outcomes, a)|) {
        assert AcceptedTurns(leaders, outcomes, a) == {};
        assert Copies(batch, 0) == [];
      }
    } else {
      var n := |leaders| - 1;
      var l, r, x, o := leaders[..n], outcomes[..n], leaders[n], outcomes[n];
      assert leaders == l + [x] && outcomes == r + [o];
      TriesEffect(q, l, r, batch);
      TriesSnoc(l, r, q.Keys, x, o);
      LastCached(l, r, q.Keys, x, o);
      var tried := Tries(l, r, q.Keys);
      ReplaySnoc(q, tried, Attempt(x, false, o), batch);
      assert tried + [] == tried;
      OneMoreTry(q, Replay(q, tried, batch), l, r, x, o, batch);
    }
  }

  lemma LastCached(leaders: seq<Address>, outcomes: seq<Outcome>, live: set<Address>, x: Address, o: Outcome)
    requires |outcomes| == |leaders|
    ensures CachedAt(leaders + [x], outcomes + [o], live, |leaders|)
            <==> x in live && !DropsOut(leaders, outcomes, x)
  {
    var l, r := leaders + [x], outcomes + [o];
    assert forall i :: 0 <= i < |leaders| ==> l[i] == leaders[i] && r[i] == outcomes[i];
  }

  lemma ReplayOne(q: Queues, a: Attempt, batch: Batch)
    ensures Replay(q, [a], batch) ==
            match a.outcome
            case Accepted => if a.leader in q then q[a.leader := q[a.leader] + [batch]] else q
            case ReceiverDropped => q - {a.leader}
            case _ => q
  {
    assert [a][..0] == [];
  }

  lemma OneMoreTry(q: Queues, q1: Queues, l: seq<Address>, r: seq<Outcome>, x: Address, o: Outcome, batch: Batch)
    requires |r| == |l| && TriedAll(q, q1, l, r, batch)
    ensures var q2 := if x in q && !DropsOut(l, r, x) then Replay(q1, [Attempt(x, false, o)], batch) else q1;
            TriedAll(q, q2, l + [x], r + [o], batch)
  {
    var a := Attempt(x, false, o);
    ReplayOne(q1, a, batch);
    var q2 := if x in q && !DropsOut(l, r, x) then Replay(q1, [a], batch) else q1;
    forall b ensures b in q2 <==> b in q && !DropsOut(l + [x], r + [o], b) {
      TurnsSnoc(l, r, x, o, b);
    }
    forall b | b in q2 && b in q
      ensures q2[b] == q[b] + Copies(batch, |AcceptedTurns(l + [x], r + [o], b)|)
    {
      TurnsSnoc(l, r, x, o, b);
      var m := |AcceptedTurns(l, r, b)|;
      assert Copies(batch, m + 1) == Copies(batch, m) + [batch];
      assert q[b] + Copies(batch, m) + [batch] == q[b] + (Copies(batch, m) + [batch]);
    }
  }

  /** A blocking send finds that the receiver of `a` is gone. */
  ghost predicate Loses(leaders: seq<Address>, outcomes: seq<Outcome>, live: set<Address>, a: Address)
    requires |outcomes| == |leaders|
  {
    exists i: nat :: BlocksAt(leaders, outcomes, live, i) && leaders[i] == a && outcomes[i] == ReceiverDropped
  }

  /** The first leader in order that is cached at its turn and accepts a blocking send is `a`. */
  ghost predicate Wins(leaders: seq<Address>, outcomes: seq<Outcome>, live: set<Address>, a: Address)
    requires |outcomes| == |leaders|
  {
    exists i: nat :: FirstAccepting(leaders, outcomes, live, i) && leaders[i] == a
  }

  /**
   The effect of the second phase: the first leader in order that is cached and accepts gets one batch, no one
   else gets any, and exactly the workers found without a receiver before that leave the cache.
   */
  ghost predicate SentToFirst(q: Queues, q': Queues, leaders: seq<Address>, outcomes: seq<Outcome>, batch: Batch)
    requires |outcomes| == |leaders|
  {
    && (forall a :: a in q' <==> a in q && !Loses(leaders, outcomes, q.Keys, a))
    && forall a :: a in q' && a in q ==>
         q'[a] == if Wins(leaders, outcomes, q.Keys, a) then q[a] + [batch] else q[a]
  }

  lemma PhaseSnoc(leaders: seq<Address>, outcomes: seq<Outcome>, live: set<Address>, x: Address, o: Outcome, a: Address)
    requires |outcomes| == |leaders|
    ensures var l, r := leaders + [x], outcomes + [o];
            var last := a == x && BlocksAt(l, r, live, |leaders|);
            && (Loses(l, r, live, a) <==> Loses(leaders, outcomes, live, a) || (last && o == ReceiverDropped))
            && (Wins(l, r, live, a) <==> Wins(leaders, outcomes, live, a) || (last && o == Accepted))
  {
    var l, r, n := leaders + [x], outcomes + [o], |leaders|;
    assert forall i :: 0 <= i < n ==> l[i] == leaders[i] && r[i] == outcomes[i];
    forall i: nat | i < n
      ensures BlocksAt(l, r, live, i) <==> BlocksAt(leaders, outcomes, live, i)
      ensures FirstAccepting(l, r, live, i) <==> FirstAccepting(leaders, outcomes, live, i)
    {
      BlocksSnoc(leaders, outcomes, live, x, o, i);
      FirstIsBlocking(l, r, live, i);
      FirstIsBlocking(leaders, outcomes, live, i);
    }
    FirstIsBlocking(l, r, live, n);
  }

  lemma FirstIsBlocking(leaders: seq<Address>, outcomes: seq<Outcome>, live: set<Address>, i: nat)
    requires |outcomes| == |leaders|
    ensures FirstAccepting(leaders, outcomes, live, i)
            <==> BlocksAt(leaders, outcomes, live, i) && outcomes[i] == Accepted
  {}

  lemma {:induction false} SendsEffect(q: Queues, leaders: seq<Address>, outcomes: seq<Outcome>, batch: Batch)
    requires |outcomes| == |leaders|
    ensures SentToFirst(q, Replay(q, Sends(leaders, outcomes, q.Keys), batch), leaders, outcomes, batch)
  {
    if leaders != [] {
      var n := |leaders| - 1;
      var l, r, x, o := leaders[..n], outcomes[..n], leaders[n], outcomes[n];
      assert leaders == l + [x] && outcomes == r + [o];
      SendsEffect(q, l, r, batch);
      SendsSnoc(l, r, q.Keys, x, o);
      var sent := Sends(l, r, q.Keys);
      ReplaySnoc(q, sent, Attempt(x, true, o), batch);
      assert sent + [] == sent;
      OneMoreSend(q, Replay(q, sent, batch), l, r, x, o, batch);
    }
  }

  lemma OneMoreSend(q: Queues, q1: Queues, l: seq<Address>, r: seq<Outcome>, x: Address, o: Outcome, batch: Batch)
    requires |r| == |l| && SentToFirst(q, q1, l, r, batch)
    ensures var q2 := if BlocksAt(l + [x], r + [o], q.Keys, |l|) then Replay(q1, [Attempt(x, true, o)], batch) else q1;
            SentToFirst(q, q2, l + [x], r + [o], batch)
  {
    ReplayOne(q1, Attempt(x, true, o), batch);
    forall a
      ensures var last := a == x && BlocksAt(l + [x], r + [o], q.Keys, |l|);
              && (Loses(l + [x], r + [o], q.Keys, a) <==> Loses(l, r, q.Keys, a) || (last && o == ReceiverDropped))
              && (Wins(l + [x], r + [o], q.Keys, a) <==> Wins(l, r, q.Keys, a) || (last && o == Accepted))
    {
      PhaseSnoc(l, r, q.Keys, x, o, a);
    }
    if BlocksAt(l + [x], r + [o], q.Keys, |l|) {
      StillCached(l, r, q.Keys, x, o);
    }
  }

  lemma StillCached(l: seq<Address>, r: seq<Outcome>, live: set<Address>, x: Address, o: Outcome)
    requires |r| == |l| && BlocksAt(l + [x], r + [o], live, |l|)
    ensures x in live && !Loses(l, r, live, x) && !Wins(l, r, live, x)
  {
    assert forall i :: 0 <= i < |l| ==> (l + [x])[i] == l[i] && (r + [o])[i] == r[i];
    forall i: nat | CachedAt(l, r, live, i) ensures r[i] != Accepted {
      CachedSnoc(l, r, live, x, o, i);
    }
  }

  // ----- the broadcaster

  class WorkersCache {
    var queues: Queues
    var log: seq<Attempt>

    constructor (queues: Queues)
      ensures this.queues == queues && log == []
    {
      this.queues, log := queues, [];
    }

    /** One attempt to enqueue, with the outcome the worker gives it. */
    method Enqueue(leader: Address, blocking: bool, batch: Batch, outcome: Outcome)
      requires leader in queues
      modifies this
      ensures log == old(log) + [Attempt(leader, blocking, outcome)]
      ensures queues == Replay(old(queues), [Attempt(leader, blocking, outcome)], batch)
    {
      log := log + [Attempt(leader, blocking, outcome)];
      match outcome {
        case Accepted => queues := queues[leader := queues[leader] + [batch]];
        case ReceiverDropped => queues := queues - {leader};
        case _ =>
      }
      assert [Attempt(leader, blocking, outcome)][..0] == [];
    }

    /** The first loop: an attempt at every cached leader, counting the accepted ones. */
    method TryAll(leaders: seq<Address>, batch: Batch, tries: seq<Outcome>) returns (delivered: nat)
      requires |tries| == |leaders|
      modifies this
      ensures var tried := Tries(leaders, tries, old(queues.Keys));
              && log == old(log) + tried && queues == Replay(old(queues), tried, batch)
              && (delivered > 0 <==> Delivered(tried))
      ensures TriedAll(old(queues), queues, leaders, tries, batch)
    {
      ghost var tried := Tries(leaders, tries, queues.Keys);
      TriesEffect(queues, leaders, tries, batch);
      ghost var done, rest := [], tried;
      delivered := 0;
      for i := 0 to |leaders|
        invariant log == old(log) + done && queues == Replay(old(queues), done, batch)
        invariant rest == Tries(leaders[i..], tries[i..], queues.Keys) && tried == done + rest
        invariant delivered > 0 <==> Delivered(done)
      {
        assert leaders[i..][1..] == leaders[i + 1..] && tries[i..][1..] == tries[i + 1..];
        if leaders[i] !in queues {
          continue;
        }
        ghost var a, before := Attempt(leaders[i], false, tries[i]), queues;
        Enqueue(leaders[i], false, batch, tries[i]);
        ReplaySnoc(old(queues), done, a, batch);
        ReplayKeys(before, a, batch);
        DeliveredSnoc(done, a);
        Regroup(old(log), done, a, rest);
        done, rest := done + [a], rest[1..];
        if tries[i] == Accepted {
          delivered := delivered + 1;
        }
      }
      assert rest == [] && done + [] == done;
    }

    /** The second loop: blocking sends in order, until one is accepted. */
    method SendFirst(leaders: seq<Address>, batch: Batch, sends: seq<Outcome>)
      requires |sends| == |leaders| && FullChannel !in sends
      modifies this
      ensures var sent := Sends(leaders, sends, old(queues.Keys));
              log == old(log) + sent && queues == Replay(old(queues), sent, batch)
      ensures SentToFirst(old(queues), queues, leaders, sends, batch)
    {
      ghost var sent := Sends(leaders, sends, queues.Keys);
      SendsEffect(queues, leaders, sends, batch);
      ghost var done, rest := [], sent;
      for i := 0 to |leaders|
        invariant log == old(log) + done && queues == Replay(old(queues), done, batch)
        invariant rest == Sends(leaders[i..], sends[i..], queues.Keys) && sent == done + rest
      {
        assert leaders[i..][1..] == leaders[i + 1..] && sends[i..][1..] == sends[i + 1..];
        if leaders[i] !in queues {
          continue;
        }
        ghost var a, before := Attempt(leaders[i], true, sends[i]), queues;
        Enqueue(leaders[i], true, batch, sends[i]);
        ReplaySnoc(old(queues), done, a, batch);
        ReplayKeys(before, a, batch);
        Regroup(old(log), done, a, rest);
        done, rest := done + [a], rest[1..];
        if sends[i] == Accepted {
          assert rest == [] && done + [] == done;
          return;
        }
      }
      assert rest == [] && done + [] == done;
    }

    /**
     `send_to_workers`. Blocking sends come only after every non-blocking one failed. `tries` and `sends` are
     what the workers answer at each turn; a blocking send never reports a full channel.
     */
    method SendToWorkers(leaders: seq<Address>, batch: Batch, tries: seq<Outcome>, sends: seq<Outcome>)
      requires |tries| == |sends| == |leaders| && FullChannel !in sends
      modifies this
      ensures var tried := Tries(leaders, tries, old(queues.Keys));
              var between := Replay(old(queues), tried, batch);
              var made := if Delivered(tried) then tried else tried + Sends(leaders, sends, between.Keys);
              log == old(log) + made && queues == Replay(old(queues), made, batch)
      ensures (exists i: nat :: CachedAt(leaders, tries, old(queues.Keys), i) && tries[i] == Accepted) ==>
                TriedAll(old(queues), queues, leaders, tries, batch)
      ensures !(exists i: nat :: CachedAt(leaders, tries, old(queues.Keys), i) && tries[i] == Accepted) ==>
                exists between ::
                  && TriedAll(old(queues), between, leaders, tries, batch)
                  && SentToFirst(between, queues, leaders, sends, batch)
    {
      ghost var tried := Tries(leaders, tries, queues.Keys);
      TriesDeliver(leaders, tries, queues.Keys);
      var delivered := TryAll(leaders, batch, tries);
      if delivered != 0 {
        return;
      }
      ghost var sent := Sends(leaders, sends, queues.Keys);
      SendFirst(leaders, batch, sends);
      ReplayAppend(old(queues), tried, sent, batch);
      assert old(log) + tried + sent == old(log) + (tried + sent);
    }
  }

  lemma Regroup(log: seq<Attempt>, done: seq<Attempt>, a: Attempt, rest: seq<Attempt>)
    ensures log + done + [a] == log + (done + [a])
    ensures rest != [] && rest[0] == a ==> done + rest == done + [a] + rest[1..]
  {}

  lemma ReplaySnoc(q: Queues, log: seq<Attempt>, a: Attempt, batch: Batch)
    ensures Replay(q, log + [a], batch) == Replay(Replay(q, log, batch), [a], batch)
  {
    assert (log + [a])[..|log|] == log;
    assert [a][..0] == [];
  }

  lemma {:induction false} ReplayAppend(q: Queues, a: seq<Attempt>, b: seq<Attempt>, batch: Batch)
    ensures Replay(q, a + b, batch) == Replay(Replay(q, a, batch), b, batch)
  {
    if b == [] {
      assert a + b == a;
    } else {
      assert (a + b)[..|a + b| - 1] == a + b[..|b| - 1];
      ReplayAppend(q, a, b[..|b| - 1], batch);
    }
  }

  lemma ReplayKeys(q: Queues, a: Attempt, batch: Batch)
    requires a.leader in q
    ensures Replay(q, [a], batch).Keys == LiveAfter(q.Keys, a.leader, a.outcome)
  {
    assert [a][..0] == [];
  }

  lemma DeliveredSnoc(log: seq<Attempt>, a: Attempt)
    ensures Delivered(log + [a]) <==> Delivered(log) || a.outcome == Accepted
  {
    var all := log + [a];
    if Delivered(log) {
      var i :| 0 <= i < |log| && log[i].outcome == Accepted;
      assert all[i].outcome == Accepted;
    }
    if a.outcome == Accepted {
      assert all[|log|].outcome == Accepted;
    }
  }
}
