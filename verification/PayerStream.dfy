/** Round-robin arithmetic: which payers a stream of transfers touches. Payers are named by their index. */
module PayerStream {

  const USIZE_MAX: nat := 0xFFFF_FFFF_FFFF_FFFF

  // ----- remainders

  lemma {:induction false} MulSign(d: int, l: int)
    requires l > 0
    ensures d >= 1 ==> d * l >= l
    ensures d <= -1 ==> d * l <= -l
    decreases if d < 0 then -d else d
  {
    if d > 1 {
      MulSign(d - 1, l);
      assert d * l == (d - 1) * l + l;
    } else if d < -1 {
      MulSign(d + 1, l);
      assert d * l == (d + 1) * l - l;
    }
  }

  lemma Distribute(a: int, b: int, l: int)
    ensures (a - b) * l == a * l - b * l && (a + b) * l == a * l + b * l
  {}

  lemma QuotientIsUnique(q: int, r: int, q': int, r': int, l: int)
    requires l > 0 && 0 <= r < l && 0 <= r' < l && q * l + r == q' * l + r'
    ensures q == q' && r == r'
  {
    Distribute(q, q', l);
    MulSign(q - q', l);
  }

  lemma DivModUnique(q: int, l: int, r: int)
    requires l > 0 && 0 <= r < l
    ensures (q * l + r) / l == q && (q * l + r) % l == r
  {
    var a := q * l + r;
    Euclid(a, l);
    QuotientIsUnique(q, r, a / l, a % l, l);
  }

  lemma Euclid(a: int, l: int)
    requires l > 0
    ensures a == (a / l) * l + a % l && 0 <= a % l < l
  {}

  lemma ModPlus(x: nat, y: nat, l: nat)
    requires l > 0
    ensures (x % l + y) % l == (x + y) % l
  {
    var q, r := (x % l + y) / l, (x % l + y) % l;
    Euclid(x % l + y, l);
    Euclid(x, l);
    Distribute(x / l, q, l);
    DivModUnique(x / l + q, l, r);
  }

  lemma ModAddL(x: nat, l: nat)
    requires l > 0
    ensures (x + l) % l == x % l
  {
    Euclid(x, l);
    Distribute(x / l, 1, l);
    DivModUnique(x / l + 1, l, x % l);
  }

  /** Two positions less than a cycle apart fall on different payers. */
  lemma ModDistinct(x: nat, y: nat, l: nat)
    requires l > 0 && x < y < x + l
    ensures x % l != y % l
  {
    Euclid(x, l);
    Euclid(y, l);
    Distribute(y / l, x / l, l);
    MulSign(y / l - x / l, l);
  }

  // ----- where a payer appears

  /** The offset in `0..l` at which the stream, seen from position `x`, first reaches payer `p`. */
  function FirstReach(x: nat, p: nat, l: nat): (j: nat)
    requires p < l
    ensures j < l
  {
    if x % l <= p then p - x % l else p + l - x % l
  }

  lemma ReachesFirst(x: nat, p: nat, l: nat)
    requires p < l
    ensures (x + FirstReach(x, p, l)) % l == p
  {
    Euclid(x, l);
    Distribute(x / l, 1, l);
    DivModUnique(x / l, l, p);
    DivModUnique(x / l + 1, l, p);
  }

  /** Within two cycles payer `p` is reached at exactly two offsets, one cycle apart. */
  lemma ReachedTwice(x: nat, p: nat, l: nat, i: nat)
    requires p < l && i < 2 * l
    ensures (x + i) % l == p <==> i == FirstReach(x, p, l) || i == FirstReach(x, p, l) + l
  {
    var j := FirstReach(x, p, l);
    ReachesFirst(x, p, l);
    ModAddL(x + j, l);
    if (x + i) % l == p && i != j && i != j + l {
      if i < j {
        ModDistinct(x + i, x + j, l);
      } else if i < j + l {
        ModDistinct(x + j, x + i, l);
      } else {
        ModDistinct(x + j + l, x + i, l);
      }
      assert false;
    }
  }

  // ----- transfers

  /** The sender and the receiver of the `k`-th transfer of the stream. */
  function Sender(k: nat, l: nat): nat requires l > 0 { (2 * k) % l }
  function Receiver(k: nat, l: nat): nat requires l > 0 { (2 * k + 1) % l }

  /** Any `l / 2` consecutive transfers touch pairwise different accounts, senders and receivers together. */
  lemma HalfCycleIsDisjoint(k: nat, l: nat, a: nat, b: nat)
    requires l > 0 && k <= a <= b < k + l / 2
    ensures Sender(a, l) != Receiver(a, l)
    ensures a < b ==> Sender(a, l) != Sender(b, l) && Receiver(a, l) != Receiver(b, l)
                      && Sender(a, l) != Receiver(b, l) && Receiver(a, l) != Sender(b, l)
  {
    ModDistinct(2 * a, 2 * a + 1, l);
    if a < b {
      ModDistinct(2 * a, 2 * b, l);
      ModDistinct(2 * a + 1, 2 * b + 1, l);
      ModDistinct(2 * a, 2 * b + 1, l);
      ModDistinct(2 * a + 1, 2 * b, l);
    }
  }

  /** A transfer goes between two different payers exactly when there are at least two. */
  lemma NoSelfTransfer(k: nat, l: nat)
    requires l > 0
    ensures Sender(k, l) != Receiver(k, l) <==> l >= 2
  {
    if l >= 2 {
      ModDistinct(2 * k, 2 * k + 1, l);
    }
  }

  function Offsets(l: nat): (s: set<nat>)
    ensures forall t: nat :: t in s <==> t < l
  {
    if l == 0 then {} else Offsets(l - 1) + {l - 1}
  }

  /** Transfers among `l` consecutive ones, from the `k`-th on, in which payer `p` sends, and in which it receives. */
  function Sends(k: nat, l: nat, p: nat): set<nat>
    requires l > 0
  {
    set t | t in Offsets(l) && Sender(k + t, l) == p
  }

  function Receives(k: nat, l: nat, p: nat): set<nat>
    requires l > 0
  {
    set t | t in Offsets(l) && Receiver(k + t, l) == p
  }

  lemma SenderAt(k: nat, t: nat, l: nat)
    requires l > 0
    ensures Sender(k + t, l) == (2 * k + 2 * t) % l && Receiver(k + t, l) == (2 * k + (2 * t + 1)) % l
  {
    assert 2 * (k + t) == 2 * k + 2 * t;
  }

  lemma SendsAt(k: nat, l: nat, p: nat, t: nat)
    requires p < l && t < l
    ensures var j := FirstReach(2 * k, p, l);
            && (t in Sends(k, l, p) <==> 2 * t == j || 2 * t == j + l)
            && (t in Receives(k, l, p) <==> 2 * t + 1 == j || 2 * t + 1 == j + l)
  {
    ReachedTwice(2 * k, p, l, 2 * t);
    ReachedTwice(2 * k, p, l, 2 * t + 1);
    SenderAt(k, t, l);
  }

  /** How many even offsets there are among `j` and `j + l`. */
  lemma EvenOffsets(s: set<nat>, l: nat, j: nat)
    requires j < l && forall t: nat :: t in s <==> t < l && (2 * t == j || 2 * t == j + l)
    ensures |s| == if l % 2 == 1 then 1 else if j % 2 == 0 then 2 else 0
  {
    if l % 2 == 1 {
      var t := if j % 2 == 0 then j / 2 else (j + l) / 2;
      assert s == {t};
    } else if j % 2 == 0 {
      var a, b := j / 2, (j + l) / 2;
      assert s == {a, b} && a != b;
    } else {
      assert s == {};
    }
  }

  lemma OddOffsets(s: set<nat>, l: nat, j: nat)
    requires j < l && forall t: nat :: t in s <==> t < l && (2 * t + 1 == j || 2 * t + 1 == j + l)
    ensures |s| == if l % 2 == 1 then 1 else if j % 2 == 0 then 0 else 2
  {
    if l % 2 == 1 {
      var t := if j % 2 == 1 then j / 2 else (j + l) / 2;
      assert s == {t};
    } else if j % 2 == 1 {
      var a, b := j / 2, (j + l) / 2;
      assert s == {a, b} && a != b;
    } else {
      assert s == {};
    }
  }

  lemma TwiceProduct(q: nat, l: nat, h: nat)
    requires l == 2 * h
    ensures q * l == 2 * (q * h)
  {}

  lemma ParityOf(x: nat, m: nat, r: nat)
    requires x == 2 * m + r
    ensures x % 2 == r % 2
  {}

  lemma ReachParity(k: nat, p: nat, l: nat, h: nat)
    requires p < l && l == 2 * h
    ensures FirstReach(2 * k, p, l) % 2 == p % 2
  {
    ParityOf(2 * k, k, 0);
    EvenReachParity(2 * k, p, l, h);
  }

  lemma EvenReachParity(x: nat, p: nat, l: nat, h: nat)
    requires p < l && l == 2 * h && x % 2 == 0
    ensures FirstReach(x, p, l) % 2 == p % 2
  {
    var q, r := Divide(x, l);
    RemainderParity(x, q, r, l, h);
    FirstReachParity(r, p, l, h);
  }

  lemma Divide(x: nat, l: nat) returns (q: nat, r: nat)
    requires l > 0
    ensures x == q * l + r && r == x % l && r < l
  {
    q, r := x / l, x % l;
    Euclid(x, l);
  }

  lemma RemainderParity(x: nat, q: nat, r: nat, l: nat, h: nat)
    requires x == q * l + r && l == 2 * h
    ensures x % 2 == r % 2
  {
    TwiceProduct(q, l, h);
    ParityOf(x, q * h, r);
  }

  lemma FirstReachParity(r: nat, p: nat, l: nat, h: nat)
    requires r < l && p < l && l == 2 * h && r % 2 == 0
    ensures (if r <= p then p - r else p + l - r) % 2 == p % 2
  {}

  lemma SharesAt(k: nat, l: nat, p: nat)
    requires p < l
    ensures var j := FirstReach(2 * k, p, l);
            && (forall t: nat :: t in Sends(k, l, p) <==> t < l && (2 * t == j || 2 * t == j + l))
            && (forall t: nat :: t in Receives(k, l, p) <==> t < l && (2 * t + 1 == j || 2 * t + 1 == j + l))
  {
    var j := FirstReach(2 * k, p, l);
    forall t: nat
      ensures t in Sends(k, l, p) <==> t < l && (2 * t == j || 2 * t == j + l)
      ensures t in Receives(k, l, p) <==> t < l && (2 * t + 1 == j || 2 * t + 1 == j + l)
    {
      if t < l {
        SendsAt(k, l, p, t);
      }
    }
  }

  /**
   Fairness, over any `l` consecutive transfers: with an odd number of payers each sends once and receives
   once; with an even number the even-indexed payers send twice and never receive, and the odd-indexed
   ones receive twice and never send.
   */
  lemma CycleShares(k: nat, l: nat, p: nat)
    requires p < l
    ensures |Sends(k, l, p)| == if l % 2 == 1 then 1 else if p % 2 == 0 then 2 else 0
    ensures |Receives(k, l, p)| == if l % 2 == 1 then 1 else if p % 2 == 0 then 0 else 2
  {
    var j := FirstReach(2 * k, p, l);
    SharesAt(k, l, p);
    EvenOffsets(Sends(k, l, p), l, j);
    OddOffsets(Receives(k, l, p), l, j);
    if l % 2 == 0 {
      ReachParity(k, p, l, l / 2);
    }
  }

  // ----- the index saved between batches

  function SaturatingAdd(a: nat, b: nat): nat {
    if a + b <= USIZE_MAX then a + b else USIZE_MAX
  }

  function NextIndex(index: nat, advance: nat, l: nat): nat
    requires l > 0
  {
    SaturatingAdd(index, advance) % l
  }

  /** Index saved for batch `b`, each batch advancing by `advance` payers. */
  function SavedIndex(b: nat, advance: nat, l: nat): (i: nat)
    requires l > 0
    ensures i < l
  {
    if b == 0 then 0 else NextIndex(SavedIndex(b - 1, advance, l), advance, l)
  }

  /** The seam between two batches is continuous exactly when the sum fits, or saturates by whole cycles. */
  lemma SeamIsContinuous(index: nat, advance: nat, l: nat)
    requires l > 0
    ensures NextIndex(index, advance, l) == (index + advance) % l
            <==> index + advance <= USIZE_MAX || (index + advance - USIZE_MAX) % l == 0
  {
    if index + advance > USIZE_MAX {
      var d := index + advance - USIZE_MAX;
      ModPlus(d, USIZE_MAX, l);
      if d % l != 0 {
        ModPlus(USIZE_MAX, d % l, l);
        ModPlus(d, USIZE_MAX, l);
        ModDistinct(USIZE_MAX, USIZE_MAX + d % l, l);
      }
    }
  }

  /** The step from batch `b` to the next neither saturates nor, saturating, drops anything but whole cycles. */
  predicate SeamHolds(b: nat, advance: nat, l: nat)
    requires l > 0
  {
    var sum := SavedIndex(b, advance, l) + advance;
    sum <= USIZE_MAX || (sum - USIZE_MAX) % l == 0
  }

  /** Batch `b` starts where the cycle is after `b` batches. */
  predicate FollowsCycle(b: nat, advance: nat, l: nat)
    requires l > 0
  {
    SavedIndex(b, advance, l) == (b * advance) % l
  }

  lemma NextFollows(b: nat, advance: nat, l: nat)
    requires l > 0 && FollowsCycle(b, advance, l)
    ensures FollowsCycle(b + 1, advance, l) <==> SeamHolds(b, advance, l)
  {
    var index := SavedIndex(b, advance, l);
    SeamIsContinuous(index, advance, l);
    ModPlus(b * advance, advance, l);
    Distribute(b, 1, advance);
    assert SavedIndex(b + 1, advance, l) == NextIndex(index, advance, l);
  }

  /** Every batch up to `b` starts where the cycle is exactly when every seam before `b` holds. */
  lemma {:induction false} SavedIndexFollows(b: nat, advance: nat, l: nat)
    requires l > 0
    ensures (forall j: nat :: j <= b ==> FollowsCycle(j, advance, l))
            <==> (forall j: nat :: j < b ==> SeamHolds(j, advance, l))
  {
    if b == 0 {
      assert FollowsCycle(0, advance, l);
    } else {
      SavedIndexFollows(b - 1, advance, l);
      if FollowsCycle(b - 1, advance, l) {
        NextFollows(b - 1, advance, l);
      }
    }
  }

  /** Without saturation every seam holds. */
  lemma SeamsWithoutSaturation(advance: nat, l: nat)
    requires l > 0 && l - 1 + advance <= USIZE_MAX
    ensures forall j: nat :: SeamHolds(j, advance, l)
  {}

  /** Element `i` of a batch that restarts from the saved index is the element of the one long cycle. */
  lemma BatchContinuesCycle(b: nat, advance: nat, l: nat, i: nat)
    requires l > 0 && FollowsCycle(b, advance, l)
    ensures (SavedIndex(b, advance, l) + i) % l == (b * advance + i) % l
  {
    ModPlus(b * advance, i, l);
  }
}
