/** The lock sections of the four tasks as they run: loops over the shared table and the row channel. */
module CsvTasks {
  import opened CsvRecords
  import opened Listing
  import opened Expiry
  import opened CsvProtocol
  import opened CsvShutdown

  /** Iterates the keys of the ordered table. */
  method OrderedKeys(t: Table) returns (ks: seq<nat>)
    ensures ks == InOrder(t.Keys)
  {
    ks := [];
    var rest := t.Keys;
    while rest != {}
      invariant Increasing(ks) && |ks| + |rest| == |t.Keys|
      invariant forall x :: x in t.Keys <==> x in ks || x in rest
      invariant forall x, y :: x in ks && y in rest ==> x < y
      decreases rest
    {
      var m := Least(rest);
      forall i | 0 <= i < |ks| ensures ks[i] < m { assert ks[i] in ks; }
      ks, rest := ks + [m], rest - {m};
    }
    ListingIsUnique(ks, InOrder(t.Keys), t.Keys);
  }

  /** The scan removes the longest prefix of old records that the channel accepts. */
  lemma {:induction false} ScanIsPrefix(ks: seq<nat>, t: Table, now: nat, limit: nat, n: nat)
    requires Stamped(t) && (forall x :: x in ks ==> x in t) && n <= |ks| && n <= limit
    requires forall i :: 0 <= i < n ==> ks[i] in t && IsOld(t[ks[i]], now)
    requires n < |ks| && n < limit ==> ks[n] in t && !IsOld(t[ks[n]], now)
    ensures ScanIds(ks, t, now, limit) == ks[..n]
  {
    if n > 0 {
      ScanIsPrefix(ks[1..], t, now, limit - 1, n - 1);
      assert ks[..n] == [ks[0]] + ks[1..][..n - 1];
    }
  }

  lemma ExpiredSnoc(ids: seq<nat>, id: nat, t: Table)
    requires id in t && forall x :: x in ids ==> x in t
    ensures ExpiredRows(ids + [id], t) == ExpiredRows(ids, t) + [Row(Expired(id), AsCsvRecord(t[id]))]
  {}

  lemma SplitSnoc<T>(rows: seq<T>, limit: nat, k: nat)
    requires k < |rows|
    ensures rows[..Min(limit, k + 1)] == if k < limit then rows[..Min(limit, k)] + [rows[k]] else rows[..Min(limit, k)]
    ensures rows[Min(limit, k + 1)..k + 1]
            == if k < limit then rows[Min(limit, k)..k] else rows[Min(limit, k)..k] + [rows[k]]
  {}

  lemma SplitAll<T>(rows: seq<T>, limit: nat)
    ensures rows[Min(limit, |rows|)..|rows|] == rows[Min(limit, |rows|)..]
  {}

  lemma PrefixSnoc<T>(s: seq<T>, n: nat)
    requires n < |s|
    ensures s[..n + 1] == s[..n] + [s[n]]
  {}

  lemma AppendTwice<T>(a: seq<T>, b: seq<T>, x: T)
    ensures a + b + [x] == a + (b + [x])
  {}

  class CsvTasks {
    var pending: Table
    var channel: seq<Row>
    var sent: seq<Row>
    var refused: seq<Row>
    var file: seq<Row>

    constructor ()
      ensures Shows(Init)
    {
      pending, channel, sent, refused, file := map[], [], [], [], [];
    }

    /** The shared objects are those of a protocol state. */
    ghost predicate Shows(s: State)
      reads this
    {
      pending == s.pending && channel == s.channel && sent == s.sent && refused == s.refused && file == s.file
    }

    /** `writer_sender.send`; `room` is how many rows the channel still accepts. */
    method Send(row: Row, room: nat) returns (ok: bool)
      modifies this`channel, this`sent
      ensures ok == (room > 0)
      ensures ok ==> channel == old(channel) + [row] && sent == old(sent) + [row]
      ensures !ok ==> channel == old(channel) && sent == old(sent)
    {
      ok := room > 0;
      if ok {
        channel, sent := channel + [row], sent + [row];
      }
    }

    /** Removes the record's transaction from the table and merges its status. */
    method Merge(record: CsvRecord) returns (row: Row)
      modifies this`pending
      ensures row == MatchRow(record, old(pending)) && pending == old(pending) - MatchKeys(record)
    {
      row := Row(Unmatched, AsCsvRecord(record));
      if record.transactionId.Some? {
        var id := record.transactionId.value;
        if id in pending {
          var merged := record.(txStatus := pending[id].txStatus);
          row := Row(Matched(id), AsCsvRecord(merged));
        }
        pending := pending - {id};
      }
      assert old(pending) - {} == old(pending);
    }

    /** The matcher takes a block record. */
    method Take(ghost s: State, record: CsvRecord) returns (row: Row)
      requires Shows(s) && Enabled(s, MatcherTakes) && record == s.matcher.rest[0]
      modifies this`pending
      ensures Shows(Apply(s, MatcherTakes)) && Apply(s, MatcherTakes).matcher == Sending(row, s.matcher.rest[1..])
    {
      row := Merge(record);
    }

    method SendBlockRow(ghost s: State, row: Row, open: bool)
      requires Shows(s) && Enabled(s, MatcherSends) && row == s.matcher.row && open == WriterAlive(s)
      modifies this`channel, this`sent, this`refused
      ensures Shows(Apply(s, MatcherSends))
    {
      var ok := Send(row, if open then 1 else 0);
      if !ok {
        refused := refused + [row];
      }
    }

    /** Sends the old records of the locked table in id order, up to the first fresh record or refused row. */
    method SendOld(t: Table, now: nat, limit: nat) returns (toRemove: seq<nat>)
      requires Stamped(t)
      modifies this`channel, this`sent
      ensures toRemove == ScanIds(InOrder(t.Keys), t, now, limit)
      ensures channel == old(channel) + ExpiredRows(toRemove, t)
      ensures sent == old(sent) + ExpiredRows(toRemove, t)
    {
      var keys := OrderedKeys(t);
      toRemove := [];
      var n: nat := 0;
      ghost var out := [];
      while n < |keys|
        invariant n <= |keys| && n <= limit && toRemove == keys[..n]
        invariant forall i :: 0 <= i < n ==> keys[i] in t && IsOld(t[keys[i]], now)
        invariant forall id :: id in toRemove ==> id in t
        invariant out == ExpiredRows(toRemove, t)
        invariant channel == old(channel) + out && sent == old(sent) + out
      {
        var id := keys[n];
        assert id in keys;
        if !IsOld(t[id], now) {
          break;
        }
        var row := Row(Expired(id), AsCsvRecord(t[id]));
        var ok := Send(row, limit - n);
        if !ok {
          break;
        }
        ExpiredSnoc(toRemove, id, t);
        PrefixSnoc(keys, n);
        AppendTwice(old(channel), out, row);
        AppendTwice(old(sent), out, row);
        toRemove, out, n := toRemove + [id], out + [row], n + 1;
      }
      ScanIsPrefix(keys, t, now, limit, n);
    }

    /** The lock section of the expirer. */
    method Scan(ghost s: State, now: nat, limit: nat)
      requires Shows(s) && Enabled(s, ExpirerScans(limit)) && now == s.expirer.now
      modifies this`pending, this`channel, this`sent
      ensures Shows(Apply(s, ExpirerScans(limit)))
    {
      var toRemove := SendOld(pending, now, limit);
      RemoveAll(toRemove);
    }

    method RemoveAll(ids: seq<nat>)
      modifies this`pending
      ensures pending == old(pending) - IdSet(ids)
    {
      for i := 0 to |ids|
        invariant pending == old(pending) - IdSet(ids[..i])
      {
        pending := pending - {ids[i]};
        assert IdSet(ids[..i + 1]) == IdSet(ids[..i]) + {ids[i]};
      }
      assert ids[..|ids|] == ids;
    }

    /** The tracker inserts a batch of sent records. */
    method Insert(ghost s: State, batch: seq<CsvRecord>)
      requires Shows(s) && Enabled(s, TrackerInserts) && batch == s.tracker.batch
      modifies this`pending
      ensures Shows(Apply(s, TrackerInserts))
    {
      for i := 0 to |batch|
        invariant forall r :: r in batch[..i] ==> r.transactionId.Some?
        invariant pending == InsertAll(batch[..i], s.pending)
      {
        assert batch[i] in batch && batch[..i + 1][..i] == batch[..i];
        pending := pending[batch[i].transactionId.value := batch[i]];
      }
      assert batch[..|batch|] == batch;
    }

    /** Sends every record of the locked table and removes none; rows the channel no longer accepts are lost. */
    method SendPending(t: Table, limit: nat)
      modifies this`channel, this`sent, this`refused
      ensures var rows := DumpRows(t);
              var n := Min(limit, |rows|);
              && channel == old(channel) + rows[..n] && sent == old(sent) + rows[..n]
              && refused == old(refused) + rows[n..]
    {
      var keys := OrderedKeys(t);
      ghost var rows := DumpRows(t);
      var room: nat := limit;
      ghost var out, lost := [], [];
      for k := 0 to |keys|
        invariant room == if k < limit then limit - k else 0
        invariant out == rows[..Min(limit, k)] && lost == rows[Min(limit, k)..k]
        invariant channel == old(channel) + out && sent == old(sent) + out && refused == old(refused) + lost
      {
        assert keys[k] in keys;
        var row := Row(Dumped(keys[k]), AsCsvRecord(t[keys[k]]));
        assert row == rows[k];
        SplitSnoc(rows, limit, k);
        AppendTwice(old(channel), out, row);
        AppendTwice(old(sent), out, row);
        AppendTwice(old(refused), lost, row);
        var ok := Send(row, room);
        if ok {
          room, out := room - 1, out + [row];
        } else {
          refused, lost := refused + [row], lost + [row];
        }
      }
      SplitAll(rows, limit);
    }

    /** The cancel arm of the tracker. */
    method Dump(ghost s: State, limit: nat)
      requires Shows(s) && Enabled(s, TrackerDumps(limit))
      modifies this`channel, this`sent, this`refused
      ensures Shows(Apply(s, TrackerDumps(limit)))
    {
      SendPending(pending, limit);
    }

    /** The writer's drain: every row of the batch is offered to the file, whatever happened to those before. */
    method WriteBatch(ghost s: State, rows: seq<Row>, oks: seq<bool>)
      requires Shows(s) && s.writer == Writing(rows) && |oks| == |rows|
      modifies this`file
      ensures IsRun(s, WriteSteps(oks)) && Shows(After(s, WriteSteps(oks)))
      ensures After(s, WriteSteps(oks)).writer == Writing([])
    {
      for i := 0 to |rows|
        invariant file == s.file + Written(Outcomes(rows[..i], oks[..i]))
      {
        if oks[i] {
          file := file + [rows[i]];
        }
        assert Outcomes(rows[..i + 1], oks[..i + 1])[..i] == Outcomes(rows[..i], oks[..i]);
      }
      assert oks[..|oks|] == oks && rows[..|rows|] == rows;
      WriteRun(s, rows, oks);
    }
  }

  function Outcomes(rows: seq<Row>, oks: seq<bool>): seq<(Row, bool)>
    requires |oks| == |rows|
  {
    seq(|rows|, i requires 0 <= i < |rows| => (rows[i], oks[i]))
  }

  function WriteSteps(oks: seq<bool>): seq<Step> {
    seq(|oks|, i requires 0 <= i < |oks| => WriterWrites(oks[i]))
  }

  lemma {:induction false} WrittenAppend(a: seq<(Row, bool)>, b: seq<(Row, bool)>)
    ensures Written(a + b) == Written(a) + Written(b)
  {
    if b == [] {
      assert a + b == a;
    } else {
      assert (a + b)[..|a + b| - 1] == a + b[..|b| - 1];
      WrittenAppend(a, b[..|b| - 1]);
    }
  }

  lemma WriteOne(s: State, rows: seq<Row>, ok: bool)
    requires s.writer == Writing(rows) && rows != []
    ensures Enabled(s, WriterWrites(ok))
    ensures Apply(s, WriterWrites(ok)) ==
            s.(writer := Writing(rows[1..]), handled := s.handled + [(rows[0], ok)],
               file := s.file + Written([(rows[0], ok)]))
  {
    assert [(rows[0], ok)][..0] == [];
    assert s.file + [] == s.file;
  }

  function Handle(s: State, rest: seq<Row>, done: seq<(Row, bool)>): State {
    s.(writer := Writing(rest), handled := s.handled + done, file := s.file + Written(done))
  }

  lemma HandleTwice(s: State, mid: seq<Row>, a: seq<(Row, bool)>, rest: seq<Row>, b: seq<(Row, bool)>)
    ensures Handle(Handle(s, mid, a), rest, b) == Handle(s, rest, a + b)
  {
    WrittenAppend(a, b);
    assert s.handled + a + b == s.handled + (a + b);
    assert s.file + Written(a) + Written(b) == s.file + (Written(a) + Written(b));
  }

  lemma HandleNothing(s: State)
    requires s.writer == Writing([])
    ensures Handle(s, [], []) == s
  {
    assert s.handled + [] == s.handled && s.file + [] == s.file;
  }

  lemma WriteStepsCons(oks: seq<bool>)
    requires oks != []
    ensures WriteSteps(oks)[0] == WriterWrites(oks[0]) && WriteSteps(oks)[1..] == WriteSteps(oks[1..])
  {}

  lemma OutcomesCons(rows: seq<Row>, oks: seq<bool>)
    requires |oks| == |rows| > 0
    ensures Outcomes(rows, oks) == [(rows[0], oks[0])] + Outcomes(rows[1..], oks[1..])
  {}

  /** A drained batch is a run of single writes. */
  lemma {:induction false} WriteRun(s: State, rows: seq<Row>, oks: seq<bool>)
    requires s.writer == Writing(rows) && |oks| == |rows|
    ensures IsRun(s, WriteSteps(oks))
    ensures After(s, WriteSteps(oks)) == Handle(s, [], Outcomes(rows, oks))
    decreases |rows|
  {
    if rows == [] {
      HandleNothing(s);
    } else {
      var first := [(rows[0], oks[0])];
      WriteOne(s, rows, oks[0]);
      WriteRun(Handle(s, rows[1..], first), rows[1..], oks[1..]);
      WriteStepsCons(oks);
      HandleTwice(s, rows[1..], first, [], Outcomes(rows[1..], oks[1..]));
      OutcomesCons(rows, oks);
    }
  }
}
