/** The table of pending transactions, ordered by id, and the scan that expires old ones. */
module Expiry {
  import opened CsvRecords
  import opened Listing

  const MAX_TX_AGE_MS: nat := (150 + 25) * 400

  type Table = map<nat, CsvRecord>

  /** Every pending record carries the timestamp at which it was sent. */
  ghost predicate Stamped(t: Table) {
    forall id :: id in t ==> t[id].sentTimestamp.Some?
  }

  function Age(r: CsvRecord, now: nat): nat
    requires r.sentTimestamp.Some?
  {
    if r.sentTimestamp.value <= now then now - r.sentTimestamp.value else 0
  }

  predicate IsOld(r: CsvRecord, now: nat)
    requires r.sentTimestamp.Some?
  {
    Age(r, now) > MAX_TX_AGE_MS
  }

  /** A record is old once more than 175 slots of 400 milliseconds have passed since it was sent. */
  lemma OldMeaning(r: CsvRecord, now: nat)
    requires r.sentTimestamp.Some?
    ensures IsOld(r, now) <==> r.sentTimestamp.value + 70000 < now
  {}

  // ----- the scan

  /**
   Ids the scan removes: it visits the table in id order, stops at the first record that is not old, and
   stops at a row the writer channel refuses. `limit` is how many rows the channel accepts meanwhile.
   */
  function ScanIds(ks: seq<nat>, t: Table, now: nat, limit: nat): (ids: seq<nat>)
    requires Stamped(t) && forall k :: k in ks ==> k in t
    ensures ids <= ks
    ensures forall id :: id in ids ==> id in t && IsOld(t[id], now)
  {
    if ks == [] || !IsOld(t[ks[0]], now) || limit == 0 then []
    else [ks[0]] + ScanIds(ks[1..], t, now, limit - 1)
  }

  /** What a scan without the early break would remove. */
  function OldIds(ks: seq<nat>, t: Table, now: nat): (ids: seq<nat>)
    requires Stamped(t) && forall k :: k in ks ==> k in t
    ensures forall id :: id in ids ==> id in ks && IsOld(t[id], now)
  {
    if ks == [] then []
    else (if IsOld(t[ks[0]], now) then [ks[0]] else []) + OldIds(ks[1..], t, now)
  }

  /** Sent timestamps do not decrease as ids grow. */
  ghost predicate SortedByTime(t: Table)
    requires Stamped(t)
  {
    forall a, b :: a in t && b in t && a <= b ==> t[a].sentTimestamp.value <= t[b].sentTimestamp.value
  }

  lemma {:induction false} OldIdsMembers(ks: seq<nat>, t: Table, now: nat)
    requires Stamped(t) && forall k :: k in ks ==> k in t
    ensures forall id :: id in OldIds(ks, t, now) <==> id in ks && IsOld(t[id], now)
  {
    if ks != [] {
      OldIdsMembers(ks[1..], t, now);
    }
  }

  lemma {:induction false} ScanOfFresh(ks: seq<nat>, t: Table, now: nat)
    requires Stamped(t) && forall k :: k in ks ==> k in t
    requires forall i :: 0 <= i < |ks| ==> !IsOld(t[ks[i]], now)
    ensures OldIds(ks, t, now) == []
  {
    if ks != [] {
      ScanOfFresh(ks[1..], t, now);
    }
  }

  /** No young record comes before an old one. */
  ghost predicate OldFirst(ks: seq<nat>, t: Table, now: nat)
    requires Stamped(t) && forall k :: k in ks ==> k in t
  {
    forall i, j :: 0 <= i < j < |ks| && IsOld(t[ks[j]], now) ==> IsOld(t[ks[i]], now)
  }

  lemma OldFirstTail(ks: seq<nat>, t: Table, now: nat)
    requires Stamped(t) && (forall k :: k in ks ==> k in t) && ks != [] && OldFirst(ks, t, now)
    ensures OldFirst(ks[1..], t, now)
    ensures !IsOld(t[ks[0]], now) ==> OldIds(ks, t, now) == []
  {
    var rest := ks[1..];
    assert forall i :: 0 <= i < |rest| ==> rest[i] == ks[i + 1];
    if !IsOld(t[ks[0]], now) {
      ScanOfFresh(ks, t, now);
    }
  }

  lemma ScanFirst(ks: seq<nat>, t: Table, now: nat, limit: nat)
    requires Stamped(t) && (forall k :: k in ks ==> k in t) && ks != [] && limit > 0
    requires IsOld(t[ks[0]], now) && ScanIds(ks[1..], t, now, limit - 1) == OldIds(ks[1..], t, now)
    ensures ScanIds(ks, t, now, limit) == OldIds(ks, t, now)
  {}

  lemma {:induction false} OldFirstScan(ks: seq<nat>, t: Table, now: nat, limit: nat)
    requires Stamped(t) && (forall k :: k in ks ==> k in t) && OldFirst(ks, t, now) && limit >= |ks|
    ensures ScanIds(ks, t, now, limit) == OldIds(ks, t, now)
  {
    if ks != [] {
      OldFirstTail(ks, t, now);
      if IsOld(t[ks[0]], now) {
        OldFirstScan(ks[1..], t, now, limit - 1);
        ScanFirst(ks, t, now, limit);
      }
    }
  }

  lemma SortedScan(ks: seq<nat>, t: Table, now: nat, limit: nat)
    requires Stamped(t) && SortedByTime(t) && Increasing(ks) && limit >= |ks|
    requires forall k :: k in ks ==> k in t
    ensures ScanIds(ks, t, now, limit) == OldIds(ks, t, now)
  {
    forall i, j | 0 <= i < j < |ks| && IsOld(t[ks[j]], now) ensures IsOld(t[ks[i]], now) {
      assert ks[i] in t && ks[j] in t && ks[i] <= ks[j];
    }
    OldFirstScan(ks, t, now, limit);
  }

  /** A younger record with a smaller id hides the older one behind it from the scan. */
  lemma HiddenOldRecord(ks: seq<nat>, t: Table, now: nat, limit: nat, i: nat, j: nat)
    requires Stamped(t) && (forall k :: k in ks ==> k in t) && Increasing(ks)
    requires i < j < |ks| && !IsOld(t[ks[i]], now) && IsOld(t[ks[j]], now)
    ensures ScanIds(ks, t, now, limit) != OldIds(ks, t, now)
  {
    var ids := ScanIds(ks, t, now, limit);
    OldIdsMembers(ks, t, now);
    assert ks[j] in OldIds(ks, t, now);
  }

  /** At one clock reading, and with the channel open, the scan is a full filter exactly when old records come first. */
  lemma ScanIsFilter(ks: seq<nat>, t: Table, now: nat, limit: nat)
    requires Stamped(t) && (forall k :: k in ks ==> k in t) && Increasing(ks) && limit >= |ks|
    ensures ScanIds(ks, t, now, limit) == OldIds(ks, t, now) <==> OldFirst(ks, t, now)
  {
    if OldFirst(ks, t, now) {
      OldFirstScan(ks, t, now, limit);
    } else {
      var i, j :| 0 <= i < j < |ks| && IsOld(t[ks[j]], now) && !IsOld(t[ks[i]], now);
      HiddenOldRecord(ks, t, now, limit, i, j);
    }
  }

  lemma PositionOf(ks: seq<nat>, id: nat) returns (i: nat)
    requires id in ks
    ensures i < |ks| && ks[i] == id
  {
    i :| 0 <= i < |ks| && ks[i] == id;
  }

  lemma UnsortedScan(t: Table, limit: nat) returns (now: nat)
    requires Stamped(t) && !SortedByTime(t)
    ensures ScanIds(InOrder(t.Keys), t, now, limit) != OldIds(InOrder(t.Keys), t, now)
  {
    var a, b :| a in t && b in t && a <= b && t[a].sentTimestamp.value > t[b].sentTimestamp.value;
    now := t[b].sentTimestamp.value + MAX_TX_AGE_MS + 1;
    var i := PositionOf(InOrder(t.Keys), a);
    var j := PositionOf(InOrder(t.Keys), b);
    HiddenOldRecord(InOrder(t.Keys), t, now, limit, i, j);
  }

  /**
   The early break is right exactly on the tables sorted by time: over all clock readings, and with the
   channel open, the scan removes what a full filter would if and only if timestamps follow ids.
   */
  lemma EarlyBreakIsExact(t: Table, limit: nat)
    requires Stamped(t) && limit >= |t|
    ensures (forall now: nat :: ScanIds(InOrder(t.Keys), t, now, limit) == OldIds(InOrder(t.Keys), t, now))
            <==> SortedByTime(t)
  {
    if SortedByTime(t) {
      forall now: nat ensures ScanIds(InOrder(t.Keys), t, now, limit) == OldIds(InOrder(t.Keys), t, now) {
        SortedScan(InOrder(t.Keys), t, now, limit);
      }
    } else {
      var now := UnsortedScan(t, limit);
    }
  }

  /** A scan removes no more than the channel accepts, and stops short only for a young record or a refused row. */
  lemma {:induction false} ScanWithin(ks: seq<nat>, t: Table, now: nat, limit: nat)
    requires Stamped(t) && forall k :: k in ks ==> k in t
    ensures |ScanIds(ks, t, now, limit)| <= limit
    ensures var ids := ScanIds(ks, t, now, limit);
            |ids| < |ks| && |ids| < limit ==> !IsOld(t[ks[|ids|]], now)
  {
    if ks != [] && IsOld(t[ks[0]], now) && limit > 0 {
      ScanWithin(ks[1..], t, now, limit - 1);
    }
  }
}
