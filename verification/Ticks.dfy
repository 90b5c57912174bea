/**
 Tick attribution: which tick of a slot every executed transaction belongs to.
 An entry that executed no transaction closes a tick.
 */
module Ticks {

  datatype Entry = Entry(index: nat, executed: nat)

  /** Number of transactions executed by the entries. */
  function TotalTxs(entries: seq<Entry>): nat {
    if entries == [] then 0
    else TotalTxs(entries[..|entries| - 1]) + entries[|entries| - 1].executed
  }

  /** Number of entries that executed nothing. */
  function ZeroEntries(entries: seq<Entry>): nat {
    if entries == [] then 0
    else ZeroEntries(entries[..|entries| - 1]) + if entries[|entries| - 1].executed == 0 then 1 else 0
  }

  /** Transaction `i` of the slot was executed by entry `e`. */
  ghost predicate Holds(entries: seq<Entry>, e: nat, i: nat) {
    e < |entries| && TotalTxs(entries[..e]) <= i < TotalTxs(entries[..e + 1])
  }

  /** One element per transaction: the number of zero entries before the entry that holds it. */
  ghost predicate IsAttribution(entries: seq<Entry>, ticks: seq<nat>) {
    && |ticks| == TotalTxs(entries)
    && forall e: nat, i: nat :: Holds(entries, e, i) && i < |ticks| ==> ticks[i] == ZeroEntries(entries[..e])
  }

  /** Transactions executed while exactly `t` zero entries had been seen. */
  function TxsInTick(entries: seq<Entry>, t: nat): nat {
    if entries == [] then 0
    else
      var before := entries[..|entries| - 1];
      TxsInTick(before, t) + if ZeroEntries(before) == t then entries[|entries| - 1].executed else 0
  }

  function Sum(xs: seq<nat>): nat {
    if xs == [] then 0 else Sum(xs[..|xs| - 1]) + xs[|xs| - 1]
  }

  // ----- prefixes

  lemma {:induction false} TotalMonotone(entries: seq<Entry>, a: nat, b: nat)
    requires a <= b <= |entries|
    ensures TotalTxs(entries[..a]) <= TotalTxs(entries[..b])
    ensures ZeroEntries(entries[..a]) <= ZeroEntries(entries[..b])
    decreases b
  {
    if a < b {
      assert entries[..b][..b - 1] == entries[..b - 1];
      TotalMonotone(entries, a, b - 1);
    }
  }

  lemma {:induction false} SumMonotone(xs: seq<nat>, a: nat, b: nat)
    requires a <= b <= |xs|
    ensures Sum(xs[..a]) <= Sum(xs[..b])
    decreases b
  {
    if a < b {
      assert xs[..b][..b - 1] == xs[..b - 1];
      SumMonotone(xs, a, b - 1);
    }
  }

  lemma SumSnoc(xs: seq<nat>, k: nat)
    requires k < |xs|
    ensures Sum(xs[..k + 1]) == Sum(xs[..k]) + xs[k]
  {
    assert xs[..k + 1][..k] == xs[..k];
  }

  lemma EntrySnoc(entries: seq<Entry>, k: nat)
    requires k < |entries|
    ensures TotalTxs(entries[..k + 1]) == TotalTxs(entries[..k]) + entries[k].executed
    ensures ZeroEntries(entries[..k + 1]) == ZeroEntries(entries[..k]) + if entries[k].executed == 0 then 1 else 0
  {
    assert entries[..k + 1][..k] == entries[..k];
  }

  // ----- the two passes

  /** Entry `e` lies between the boundaries of its tick, the running sums of `perTick`. */
  ghost predicate Bracket(entries: seq<Entry>, e: nat, perTick: seq<nat>)
    requires e < |entries|
  {
    var z := ZeroEntries(entries[..e]);
    && z <= |perTick|
    && Sum(perTick[..z]) <= TotalTxs(entries[..e])
    && (z < |perTick| ==> TotalTxs(entries[..e + 1]) <= Sum(perTick[..z + 1]))
  }

  /** State of the first pass after `k` entries, `cur` transactions being in the tick still open. */
  ghost predicate Counted(entries: seq<Entry>, k: nat, perTick: seq<nat>, cur: nat) {
    && k <= |entries|
    && Sum(perTick) + cur == TotalTxs(entries[..k])
    && |perTick| == ZeroEntries(entries[..k])
    && (forall e: nat :: e < k ==> Bracket(entries, e, perTick))
    && (forall e: nat :: e < k && entries[e].executed > 0 ==> ZeroEntries(entries[..e]) < |perTick| || cur > 0)
  }

  lemma PushKeepsBracket(entries: seq<Entry>, k: nat, perTick: seq<nat>, cur: nat, e: nat)
    requires Counted(entries, k, perTick, cur) && e < k
    ensures Sum(perTick + [cur]) == Sum(perTick) + cur
    ensures Bracket(entries, e, perTick + [cur])
    ensures ZeroEntries(entries[..e]) < |perTick + [cur]|
  {
    var more := perTick + [cur];
    var z := ZeroEntries(entries[..e]);
    assert more[..|perTick|] == perTick && more[..|more|] == more;
    assert Bracket(entries, e, perTick);
    TotalMonotone(entries, e, k);
    assert more[..z] == perTick[..z];
    if z < |perTick| {
      assert more[..z + 1] == perTick[..z + 1];
    } else {
      TotalMonotone(entries, e + 1, k);
      assert more[..z + 1] == more;
    }
  }

  lemma CountZeroEntry(entries: seq<Entry>, k: nat, perTick: seq<nat>, cur: nat)
    requires Counted(entries, k, perTick, cur) && k < |entries| && entries[k].executed == 0
    ensures Counted(entries, k + 1, perTick + [cur], 0)
  {
    var more := perTick + [cur];
    EntrySnoc(entries, k);
    assert more[..|perTick|] == perTick && more[..|more|] == more;
    forall e: nat | e < k + 1
      ensures Bracket(entries, e, more) && (entries[e].executed > 0 ==> ZeroEntries(entries[..e]) < |more|)
    {
      if e < k { PushKeepsBracket(entries, k, perTick, cur, e); }
    }
  }

  lemma CountTxEntry(entries: seq<Entry>, k: nat, perTick: seq<nat>, cur: nat)
    requires Counted(entries, k, perTick, cur) && k < |entries| && entries[k].executed > 0
    ensures Counted(entries, k + 1, perTick, cur + entries[k].executed)
  {
    EntrySnoc(entries, k);
    assert perTick[..|perTick|] == perTick;
    assert Bracket(entries, k, perTick);
  }

  /** First pass of `find_tx_ticks`: transactions per tick, the unclosed last tick included. */
  method CountPerTick(entries: seq<Entry>) returns (perTick: seq<nat>, total: nat)
    ensures total == TotalTxs(entries)
    ensures total > 0 ==> Sum(perTick) == total
    ensures total > 0 ==> forall e: nat :: e < |entries| ==> Bracket(entries, e, perTick)
    ensures total > 0 ==>
              forall e: nat :: e < |entries| && entries[e].executed > 0 ==> ZeroEntries(entries[..e]) < |perTick|
  {
    perTick, total := [], 0;
    var cur: nat := 0;
    for k := 0 to |entries|
      invariant total == TotalTxs(entries[..k])
      invariant Counted(entries, k, perTick, cur)
    {
      if entries[k].executed == 0 {
        CountZeroEntry(entries, k, perTick, cur);
        EntrySnoc(entries, k);
        perTick := perTick + [cur];
        cur := 0;
      } else {
        CountTxEntry(entries, k, perTick, cur);
        EntrySnoc(entries, k);
        cur := cur + entries[k].executed;
        total := total + entries[k].executed;
      }
    }
    assert entries[..|entries|] == entries;
    if total == 0 {
      return;
    }
    if cur > 0 {
      forall e: nat | e < |entries|
        ensures Bracket(entries, e, perTick + [cur]) && ZeroEntries(entries[..e]) < |perTick + [cur]|
      {
        PushKeepsBracket(entries, |entries|, perTick, cur, e);
      }
      assert (perTick + [cur])[..|perTick|] == perTick;
      perTick := perTick + [cur];
    }
  }

  /** Transaction `i` falls under tick `t` of the running sums. */
  ghost predicate Under(perTick: seq<nat>, i: nat, t: nat) {
    t < |perTick| && Sum(perTick[..t]) <= i < Sum(perTick[..t + 1])
  }

  lemma BoundaryIsUnique(xs: seq<nat>, i: nat, s: nat, t: nat)
    requires Under(xs, i, s) && Under(xs, i, t)
    ensures s == t
  {
    if s < t { SumMonotone(xs, s + 1, t); }
    if t < s { SumMonotone(xs, t + 1, s); }
  }

  /**
   `find_tx_ticks`: the result array starts filled with 64; a moving boundary assigns every transaction
   the tick whose running sum it falls under.
   */
  method FindTxTicks(entries: seq<Entry>) returns (ticks: array<nat>)
    ensures IsAttribution(entries, ticks[..])
  {
    var perTick, total := CountPerTick(entries);
    if total == 0 {
      ticks := new nat[0];
      return;
    }
    ticks := new nat[total](_ => 64);
    assert perTick[..|perTick|] == perTick;
    assert perTick[..0] == [];
    SumSnoc(perTick, 0);
    var boundary := perTick[0];
    var tick: nat := 0;
    for i := 0 to total
      invariant tick < |perTick|
      invariant boundary == Sum(perTick[..tick + 1])
      invariant Sum(perTick[..tick]) <= i
      invariant forall j: nat :: j < i ==> Under(perTick, j, ticks[j])
    {
      while i >= boundary
        invariant tick < |perTick|
        invariant boundary == Sum(perTick[..tick + 1])
        invariant Sum(perTick[..tick]) <= i
        invariant forall j: nat :: j < i ==> Under(perTick, j, ticks[j])
        decreases |perTick| - tick
      {
        assert tick + 1 < |perTick|;
        SumSnoc(perTick, tick + 1);
        tick := tick + 1;
        boundary := boundary + perTick[tick];
      }
      ticks[i] := tick;
      assert Under(perTick, i, ticks[i]);
    }
    forall e: nat, i: nat | Holds(entries, e, i) && i < ticks.Length
      ensures ticks[..][i] == ZeroEntries(entries[..e])
    {
      EntrySnoc(entries, e);
      assert Bracket(entries, e, perTick);
      assert Under(perTick, i, ticks[i]);
      BoundaryIsUnique(perTick, i, ticks[i], ZeroEntries(entries[..e]));
    }
  }

  // ----- what an attribution is

  function Repeat(t: nat, n: nat): (r: seq<nat>)
    ensures |r| == n && forall i :: 0 <= i < n ==> r[i] == t
  {
    seq(n, _ => t)
  }

  /** The attribution spelled out entry by entry. */
  function Attribute(entries: seq<Entry>): seq<nat> {
    if entries == [] then []
    else
      var before := entries[..|entries| - 1];
      Attribute(before) + Repeat(ZeroEntries(before), entries[|entries| - 1].executed)
  }

  /** Every transaction is held by some entry. */
  lemma {:induction false} SomeEntryHolds(entries: seq<Entry>, i: nat) returns (e: nat)
    requires i < TotalTxs(entries)
    ensures Holds(entries, e, i)
  {
    var last := |entries| - 1;
    assert entries[..last + 1] == entries;
    if TotalTxs(entries[..last]) <= i {
      e := last;
    } else {
      e := SomeEntryHolds(entries[..last], i);
      assert entries[..last][..e] == entries[..e] && entries[..last][..e + 1] == entries[..e + 1];
    }
  }

  lemma {:induction false} AttributeIsAttribution(entries: seq<Entry>)
    ensures IsAttribution(entries, Attribute(entries))
  {
    if entries != [] {
      var last := |entries| - 1;
      var before := entries[..last];
      AttributeIsAttribution(before);
      assert entries[..last + 1] == entries;
      forall e: nat, i: nat | Holds(entries, e, i) && i < |Attribute(entries)|
        ensures Attribute(entries)[i] == ZeroEntries(entries[..e])
      {
        if e < last {
          HoldsBefore(entries, e, i, last);
        }
      }
    }
  }

  /** A transaction held by an earlier entry is held by it in the entries before the last one too. */
  lemma HoldsBefore(entries: seq<Entry>, e: nat, i: nat, k: nat)
    requires Holds(entries, e, i) && e < k <= |entries|
    ensures Holds(entries[..k], e, i) && i < TotalTxs(entries[..k]) && entries[..k][..e] == entries[..e]
  {
    TotalMonotone(entries, e + 1, k);
    assert entries[..k][..e] == entries[..e] && entries[..k][..e + 1] == entries[..e + 1];
  }

  /** The declarative meaning leaves no freedom: there is exactly one attribution. */
  lemma AttributionIsUnique(entries: seq<Entry>, ticks: seq<nat>)
    requires IsAttribution(entries, ticks)
    ensures ticks == Attribute(entries)
  {
    AttributeIsAttribution(entries);
    forall i: nat | i < |ticks| ensures ticks[i] == Attribute(entries)[i] {
      var e := SomeEntryHolds(entries, i);
    }
  }

  lemma {:induction false} RepeatCount(t: nat, n: nat, u: nat)
    ensures multiset(Repeat(t, n))[u] == if t == u then n else 0
  {
    if n > 0 {
      RepeatCount(t, n - 1, u);
      assert Repeat(t, n) == Repeat(t, n - 1) + [t];
    }
  }

  /** Tick `t` occurs exactly as often as transactions were counted into it. */
  lemma {:induction false} TickOccurrences(entries: seq<Entry>, t: nat)
    ensures multiset(Attribute(entries))[t] == TxsInTick(entries, t)
  {
    if entries != [] {
      var before := entries[..|entries| - 1];
      TickOccurrences(before, t);
      RepeatCount(ZeroEntries(before), entries[|entries| - 1].executed, t);
    }
  }

  /** Ticks never decrease along the block and never exceed the number of ticks closed. */
  lemma {:induction false} TicksAreMonotone(entries: seq<Entry>)
    ensures |Attribute(entries)| == TotalTxs(entries)
    ensures forall i, j :: 0 <= i <= j < |Attribute(entries)| ==> Attribute(entries)[i] <= Attribute(entries)[j]
    ensures forall i :: 0 <= i < |Attribute(entries)| ==> Attribute(entries)[i] <= ZeroEntries(entries)
  {
    if entries != [] {
      TicksAreMonotone(entries[..|entries| - 1]);
    }
  }

  // ----- examples

  /** One entry more: its transactions are in tick `z`, and `out` is the attribution then. */
  lemma Next(entries: seq<Entry>, e: Entry, z: nat, out: seq<nat>) returns (more: seq<Entry>)
    requires ZeroEntries(entries) == z && out == Attribute(entries) + Repeat(z, e.executed)
    ensures more == entries + [e] && Attribute(more) == out
    ensures ZeroEntries(more) == z + if e.executed == 0 then 1 else 0
  {
    more := entries + [e];
    assert more[..|entries|] == entries;
  }

  /** Ticks of different sizes. */
  lemma NonUniformTicks()
    ensures Attribute([Entry(0, 1), Entry(1, 2), Entry(2, 0), Entry(3, 1), Entry(4, 0), Entry(5, 2), Entry(6, 0)])
            == [0, 0, 0, 1, 2, 2]
  {
    var e: seq<Entry> := [];
    e := Next(e, Entry(0, 1), 0, [0]);
    e := Next(e, Entry(1, 2), 0, [0, 0, 0]);
    e := Next(e, Entry(2, 0), 0, [0, 0, 0]);
    e := Next(e, Entry(3, 1), 1, [0, 0, 0, 1]);
    e := Next(e, Entry(4, 0), 1, [0, 0, 0, 1]);
    e := Next(e, Entry(5, 2), 2, [0, 0, 0, 1, 2, 2]);
    e := Next(e, Entry(6, 0), 2, [0, 0, 0, 1, 2, 2]);
    assert e == [Entry(0, 1), Entry(1, 2), Entry(2, 0), Entry(3, 1), Entry(4, 0), Entry(5, 2), Entry(6, 0)];
  }

  /** Empty ticks before and between transactions, and a last tick that is not closed. */
  lemma EmptyTicks()
    ensures Attribute([Entry(0, 0), Entry(1, 0), Entry(2, 3), Entry(3, 0), Entry(4, 0), Entry(5, 1)])
            == [2, 2, 2, 4]
  {
    var e: seq<Entry> := [];
    e := Next(e, Entry(0, 0), 0, []);
    e := Next(e, Entry(1, 0), 1, []);
    e := Next(e, Entry(2, 3), 2, [2, 2, 2]);
    e := Next(e, Entry(3, 0), 2, [2, 2, 2]);
    e := Next(e, Entry(4, 0), 3, [2, 2, 2]);
    e := Next(e, Entry(5, 1), 4, [2, 2, 2, 4]);
    assert e == [Entry(0, 0), Entry(1, 0), Entry(2, 3), Entry(3, 0), Entry(4, 0), Entry(5, 1)];
  }
}
