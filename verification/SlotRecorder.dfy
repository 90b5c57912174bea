/**
 The subscriber's event loop: one recording per open slot, fed by an interleaved stream of updates, emitted
 when the slot's block metadata arrives and discarded when the slot is declared dead.
 */
module SlotRecorder {
  import opened Wrappers
  import opened Ticks
  import opened StableSort
  import opened SlotRows

  datatype Event =
    | SlotOpened(slot: nat)                 // first shred received, or bank created
    | SlotDead(slot: nat)
    | SlotOther(slot: nat)                  // confirmed, finalized and every other status
    | TxSeen(slot: nat, tx: Tx)
    | EntrySeen(slot: nat, entry: Entry)
    | MetaSeen(slot: nat, executed: nat)
    | Unsupported
    | StreamError

  /** A recording that left the map, with the executed transaction count when it was emitted. */
  datatype Closed = Emitted(recording: Recording, executed: nat) | Discarded(recording: Recording)

  datatype State = State(open: map<nat, Recording>, closed: seq<Closed>, failed: bool)

  const Init: State := State(map[], [], false)

  /** One turn of the loop; an error ends the loop, after which nothing changes. */
  function Step(s: State, e: Event): State {
    if s.failed then s
    else
      match e
      case SlotOpened(slot) => if slot in s.open then s else s.(open := s.open[slot := Recording(slot, [], [])])
      case SlotDead(slot) =>
        if slot in s.open then s.(open := s.open - {slot}, closed := s.closed + [Discarded(s.open[slot])]) else s
      case SlotOther(_) => s
      case TxSeen(slot, tx) =>
        if slot in s.open then s.(open := s.open[slot := s.open[slot].(txs := s.open[slot].txs + [tx])]) else s
      case EntrySeen(slot, entry) =>
        if slot in s.open
        then s.(open := s.open[slot := s.open[slot].(entries := s.open[slot].entries + [entry])]) else s
      case MetaSeen(slot, executed) =>
        if slot in s.open
        then s.(open := s.open - {slot}, closed := s.closed + [Emitted(s.open[slot], executed)]) else s
      case Unsupported => s
      case StreamError => s.(failed := true)
  }

  /** The state after a whole stream. */
  function Run(events: seq<Event>): State {
    if events == [] then Init else Step(Run(events[..|events| - 1]), events[|events| - 1])
  }

  function RunFrom(s: State, events: seq<Event>): State {
    if events == [] then s else Step(RunFrom(s, events[..|events| - 1]), events[|events| - 1])
  }

  lemma {:induction false} RunAppend(a: seq<Event>, b: seq<Event>)
    ensures Run(a + b) == RunFrom(Run(a), b)
  {
    if b == [] {
      assert a + b == a;
    } else {
      assert (a + b)[..|a + b| - 1] == a + b[..|b| - 1];
      RunAppend(a, b[..|b| - 1]);
    }
  }

  // ----- slots do not interfere

  predicate Concerns(e: Event, slot: nat) {
    match e
    case SlotOpened(s) => s == slot
    case SlotDead(s) => s == slot
    case SlotOther(s) => s == slot
    case TxSeen(s, _) => s == slot
    case EntrySeen(s, _) => s == slot
    case MetaSeen(s, _) => s == slot
    case Unsupported => false
    case StreamError => true
  }

  /** The events of one slot, and the errors, which end the stream for every slot. */
  function EventsOf(events: seq<Event>, slot: nat): seq<Event> {
    if events == [] then []
    else
      var e := events[|events| - 1];
      EventsOf(events[..|events| - 1], slot) + if Concerns(e, slot) then [e] else []
  }

  function ClosedOf(closed: seq<Closed>, slot: nat): seq<Closed> {
    if closed == [] then []
    else
      var c := closed[|closed| - 1];
      ClosedOf(closed[..|closed| - 1], slot) + if c.recording.slot == slot then [c] else []
  }

  function OpenOf(s: State, slot: nat): Option<Recording> {
    if slot in s.open then Some(s.open[slot]) else None
  }

  ghost predicate OwnSlots(s: State) {
    forall slot :: slot in s.open ==> s.open[slot].slot == slot
  }

  lemma {:induction false} RunOwnsSlots(events: seq<Event>)
    ensures OwnSlots(Run(events))
  {
    if events != [] {
      RunOwnsSlots(events[..|events| - 1]);
    }
  }

  /** Both states agree on what concerns the slot. */
  ghost predicate SameFor(a: State, b: State, slot: nat) {
    OpenOf(a, slot) == OpenOf(b, slot) && ClosedOf(a.closed, slot) == ClosedOf(b.closed, slot) && a.failed == b.failed
  }

  lemma ClosedSnoc(closed: seq<Closed>, c: Closed, slot: nat)
    ensures ClosedOf(closed + [c], slot) == ClosedOf(closed, slot) + if c.recording.slot == slot then [c] else []
  {
    assert (closed + [c])[..|closed|] == closed;
  }

  lemma OtherEventsPassBy(s: State, e: Event, slot: nat)
    requires OwnSlots(s) && !Concerns(e, slot)
    ensures SameFor(Step(s, e), s, slot)
  {
    if !s.failed && (e.SlotDead? || e.MetaSeen?) && e.slot in s.open {
      var c := if e.SlotDead? then Discarded(s.open[e.slot]) else Emitted(s.open[e.slot], e.executed);
      ClosedSnoc(s.closed, c, slot);
    }
  }

  lemma OwnEventsAgree(a: State, b: State, e: Event, slot: nat)
    requires OwnSlots(a) && OwnSlots(b) && SameFor(a, b, slot) && Concerns(e, slot)
    ensures SameFor(Step(a, e), Step(b, e), slot)
  {
    if !a.failed && (e.SlotDead? || e.MetaSeen?) && e.slot in a.open {
      var c := if e.SlotDead? then Discarded(a.open[e.slot]) else Emitted(a.open[e.slot], e.executed);
      ClosedSnoc(a.closed, c, slot);
      ClosedSnoc(b.closed, c, slot);
    }
  }

  /**
   Slot locality: what the loop emits, discards and keeps open for a slot is what it would have on the
   events of that slot alone, in the same order, however the stream interleaves slots.
   */
  lemma {:induction false} SlotsAreIndependent(events: seq<Event>, slot: nat)
    ensures SameFor(Run(events), Run(EventsOf(events, slot)), slot)
  {
    if events != [] {
      var before, e := events[..|events| - 1], events[|events| - 1];
      SlotsAreIndependent(before, slot);
      RunOwnsSlots(before);
      var own := EventsOf(before, slot);
      RunOwnsSlots(own);
      if Concerns(e, slot) {
        OwnEventsAgree(Run(before), Run(own), e, slot);
        assert (own + [e])[..|own|] == own;
      } else {
        OtherEventsPassBy(Run(before), e, slot);
        assert own + [] == own;
      }
    }
  }

  // ----- a recording is its window of the stream

  function TxsOf(events: seq<Event>, slot: nat): seq<Tx> {
    if events == [] then []
    else
      var e := events[|events| - 1];
      TxsOf(events[..|events| - 1], slot) + if e.TxSeen? && e.slot == slot then [e.tx] else []
  }

  function EntriesOf(events: seq<Event>, slot: nat): seq<Entry> {
    if events == [] then []
    else
      var e := events[|events| - 1];
      EntriesOf(events[..|events| - 1], slot) + if e.EntrySeen? && e.slot == slot then [e.entry] else []
  }

  /** What the stream says about the slot since the event at `o`. */
  function RecordingSince(events: seq<Event>, slot: nat, o: nat): Recording
    requires o <= |events|
  {
    Recording(slot, TxsOf(events[o..], slot), EntriesOf(events[o..], slot))
  }

  predicate Closes(e: Event, slot: nat) {
    (e.SlotDead? || e.MetaSeen?) && e.slot == slot
  }

  /** Nothing in the events closes the slot or ends the stream. */
  ghost predicate Quiet(events: seq<Event>, slot: nat) {
    forall i :: 0 <= i < |events| ==> !Closes(events[i], slot) && !events[i].StreamError?
  }

  lemma QuietStep(s: State, e: Event, slot: nat)
    requires !s.failed && slot in s.open && !Closes(e, slot) && !e.StreamError?
    ensures var s' := Step(s, e);
            && !s'.failed && slot in s'.open && s'.open[slot].slot == s.open[slot].slot
            && s'.open[slot].txs == s.open[slot].txs + (if e.TxSeen? && e.slot == slot then [e.tx] else [])
            && s'.open[slot].entries ==
               s.open[slot].entries + (if e.EntrySeen? && e.slot == slot then [e.entry] else [])
  {}

  /** While nothing closes it, an open recording collects its slot's updates in order; reopening changes nothing. */
  lemma {:induction false} OpenCollects(s: State, w: seq<Event>, slot: nat)
    requires !s.failed && slot in s.open && Quiet(w, slot)
    ensures var s' := RunFrom(s, w);
            && !s'.failed && slot in s'.open && s'.open[slot].slot == s.open[slot].slot
            && s'.open[slot].txs == s.open[slot].txs + TxsOf(w, slot)
            && s'.open[slot].entries == s.open[slot].entries + EntriesOf(w, slot)
  {
    if w != [] {
      var before, e := w[..|w| - 1], w[|w| - 1];
      assert forall i :: 0 <= i < |before| ==> before[i] == w[i];
      OpenCollects(s, before, slot);
      QuietStep(RunFrom(s, before), e, slot);
    }
  }

  /** The slot is opened at `o`, every earlier opening was closed before `o`, and nothing closes it from `o` on. */
  ghost predicate IsWindow(events: seq<Event>, slot: nat, o: nat) {
    && o < |events| && events[o] == SlotOpened(slot)
    && Quiet(events[o..], slot)
    && (forall i :: 0 <= i < o ==> !events[i].StreamError?)
    && forall p :: 0 <= p < o && events[p] == SlotOpened(slot) ==> exists q :: p < q < o && Closes(events[q], slot)
  }

  ghost predicate NoError(events: seq<Event>) {
    forall i :: 0 <= i < |events| ==> !events[i].StreamError?
  }

  lemma {:induction false} FailsOnError(events: seq<Event>)
    ensures Run(events).failed <==> !NoError(events)
  {
    if events != [] {
      FailsOnError(events[..|events| - 1]);
      assert forall i :: 0 <= i < |events| - 1 ==> events[..|events| - 1][i] == events[i];
    }
  }

  lemma WindowGrows(events: seq<Event>, e: Event, slot: nat, o: nat)
    requires IsWindow(events, slot, o) && !Closes(e, slot) && !e.StreamError?
    ensures IsWindow(events + [e], slot, o)
  {
    var more := events + [e];
    assert more[o..] == events[o..] + [e];
    forall p | 0 <= p < o && more[p] == SlotOpened(slot) ensures exists q :: p < q < o && Closes(more[q], slot) {
      assert events[p] == SlotOpened(slot);
      var q :| p < q < o && Closes(events[q], slot);
      assert Closes(more[q], slot);
    }
  }

  /** If the slot is not open, every opening in the stream has been closed. */
  lemma {:induction false} ClosedOpenings(events: seq<Event>, slot: nat, p: nat)
    requires NoError(events) && slot !in Run(events).open && p < |events| && events[p] == SlotOpened(slot)
    ensures exists q :: p < q < |events| && Closes(events[q], slot)
  {
    var n := |events| - 1;
    var before, e := events[..n], events[n];
    FailsOnError(events);
    FailsOnError(before);
    if p == n {
      assert false;
    } else if Closes(e, slot) {
    } else {
      assert forall i :: 0 <= i < n ==> before[i] == events[i];
      assert slot !in Run(before).open;
      ClosedOpenings(before, slot, p);
      var q :| p < q < n && Closes(before[q], slot);
      assert Closes(events[q], slot);
    }
  }

  lemma {:induction false} OpenHasWindow(events: seq<Event>, slot: nat) returns (o: nat)
    requires NoError(events) && slot in Run(events).open
    ensures IsWindow(events, slot, o)
  {
    var n := |events| - 1;
    var before, e := events[..n], events[n];
    assert events == before + [e];
    assert forall i :: 0 <= i < n ==> before[i] == events[i];
    FailsOnError(before);
    if slot in Run(before).open {
      o := OpenHasWindow(before, slot);
      WindowGrows(before, e, slot, o);
    } else {
      o := n;
      assert e == SlotOpened(slot);
      assert events[n..] == [e];
      forall p | 0 <= p < n && events[p] == SlotOpened(slot) ensures exists q :: p < q < n && Closes(events[q], slot) {
        assert before[p] == events[p];
        ClosedOpenings(before, slot, p);
        var q :| p < q < n && Closes(before[q], slot);
        assert Closes(events[q], slot);
      }
    }
  }

  lemma WindowParts(events: seq<Event>, slot: nat, o: nat)
    requires IsWindow(events, slot, o)
    ensures NoError(events) && NoError(events[..o]) && Quiet(events[o + 1..], slot)
  {
    assert forall i :: o <= i < |events| ==> events[i] == events[o..][i - o];
  }

  lemma StillOpen(events: seq<Event>, slot: nat, o: nat)
    requires IsWindow(events, slot, o)
    ensures forall q :: o < q < |events| ==> !Closes(events[q], slot)
  {
    assert forall q :: o <= q < |events| ==> events[q] == events[o..][q - o];
  }

  lemma ClosedAtWindow(events: seq<Event>, slot: nat, o: nat)
    requires IsWindow(events, slot, o)
    ensures slot !in Run(events[..o]).open && !Run(events[..o]).failed
  {
    WindowParts(events, slot, o);
    var before := events[..o];
    FailsOnError(before);
    assert forall i :: 0 <= i < o ==> before[i] == events[i];
    if slot in Run(before).open {
      var o' := OpenHasWindow(before, slot);
      StillOpen(before, slot, o');
      assert false;
    }
  }

  /** In a window the slot is open and its recording is what the stream says about the slot since `o`. */
  lemma WindowIsRecorded(events: seq<Event>, slot: nat, o: nat)
    requires IsWindow(events, slot, o)
    ensures NoError(events)
    ensures OpenOf(Run(events), slot) == Some(RecordingSince(events, slot, o))
  {
    WindowParts(events, slot, o);
    ClosedAtWindow(events, slot, o);
    var s := Step(Run(events[..o]), events[o]);
    var w := events[o + 1..];
    assert s.open[slot] == Recording(slot, [], []);
    assert Run(events[..o + 1]) == s by { assert events[..o + 1][..o] == events[..o]; }
    assert events == events[..o + 1] + w;
    RunAppend(events[..o + 1], w);
    OpenCollects(s, w, slot);
    assert events[o..] == [events[o]] + w;
    OpeningAddsNothing(events[o], w, slot);
    assert [] + TxsOf(w, slot) == TxsOf(w, slot) && [] + EntriesOf(w, slot) == EntriesOf(w, slot);
  }

  lemma {:induction false} OpeningAddsNothing(e: Event, w: seq<Event>, slot: nat)
    requires e == SlotOpened(slot)
    ensures TxsOf([e] + w, slot) == TxsOf(w, slot) && EntriesOf([e] + w, slot) == EntriesOf(w, slot)
  {
    var all := [e] + w;
    if w == [] {
      assert all[..0] == [];
    } else {
      assert all[..|all| - 1] == [e] + w[..|w| - 1];
      OpeningAddsNothing(e, w[..|w| - 1], slot);
    }
  }

  /**
   A slot is open exactly when the stream has a window for it, and closing metadata then emits exactly the
   updates of that window; without a window it emits nothing.
   */
  lemma MetaEmitsWindow(events: seq<Event>, slot: nat, executed: nat)
    requires NoError(events)
    ensures slot in Run(events).open <==> exists o: nat :: IsWindow(events, slot, o)
    ensures forall o: nat :: IsWindow(events, slot, o) ==>
              Run(events + [MetaSeen(slot, executed)]).closed
              == Run(events).closed + [Emitted(RecordingSince(events, slot, o), executed)]
    ensures (forall o: nat :: !IsWindow(events, slot, o)) ==>
              Run(events + [MetaSeen(slot, executed)]) == Run(events)
  {
    FailsOnError(events);
    if slot in Run(events).open {
      var o := OpenHasWindow(events, slot);
    }
    forall o: nat | IsWindow(events, slot, o)
      ensures OpenOf(Run(events), slot) == Some(RecordingSince(events, slot, o))
    {
      WindowIsRecorded(events, slot, o);
    }
    var more := events + [MetaSeen(slot, executed)];
    assert more[..|more| - 1] == events;
  }

  // ----- what closes a recording decides what becomes of it

  /** The recording of the slot's window, if the stream has one. */
  ghost function WindowOf(events: seq<Event>, slot: nat): Option<Recording> {
    if o: nat :| IsWindow(events, slot, o) then Some(RecordingSince(events, slot, o)) else None
  }

  lemma OpenIsWindow(events: seq<Event>, slot: nat)
    requires NoError(events)
    ensures OpenOf(Run(events), slot) == WindowOf(events, slot)
  {
    if slot in Run(events).open {
      var o := OpenHasWindow(events, slot);
    }
    if o: nat :| IsWindow(events, slot, o) {
      forall o: nat | IsWindow(events, slot, o)
        ensures OpenOf(Run(events), slot) == Some(RecordingSince(events, slot, o))
      {
        WindowIsRecorded(events, slot, o);
      }
    }
  }

  /** Every window ended by block metadata, in order, with the count the metadata carries. */
  ghost function EndedByMeta(events: seq<Event>): seq<Closed> {
    if events == [] then []
    else
      var before, e := events[..|events| - 1], events[|events| - 1];
      EndedByMeta(before)
      + if NoError(before) && e.MetaSeen? && WindowOf(before, e.slot).Some?
        then [Emitted(WindowOf(before, e.slot).value, e.executed)] else []
  }

  /** Every window ended by a dead status, in order. */
  ghost function EndedByDeath(events: seq<Event>): seq<Closed> {
    if events == [] then []
    else
      var before, e := events[..|events| - 1], events[|events| - 1];
      EndedByDeath(before)
      + if NoError(before) && e.SlotDead? && WindowOf(before, e.slot).Some?
        then [Discarded(WindowOf(before, e.slot).value)] else []
  }

  function EmittedIn(closed: seq<Closed>): seq<Closed> {
    if closed == [] then []
    else
      var c := closed[|closed| - 1];
      EmittedIn(closed[..|closed| - 1]) + if c.Emitted? then [c] else []
  }

  function DiscardedIn(closed: seq<Closed>): seq<Closed> {
    if closed == [] then []
    else
      var c := closed[|closed| - 1];
      DiscardedIn(closed[..|closed| - 1]) + if c.Discarded? then [c] else []
  }

  lemma SplitSnoc(closed: seq<Closed>, c: Closed)
    ensures EmittedIn(closed + [c]) == EmittedIn(closed) + if c.Emitted? then [c] else []
    ensures DiscardedIn(closed + [c]) == DiscardedIn(closed) + if c.Discarded? then [c] else []
  {
    assert (closed + [c])[..|closed|] == closed;
  }

  /** What one event adds to the recordings emitted and discarded. */
  lemma ClosesOnly(s: State, e: Event)
    ensures var s' := Step(s, e);
            var here := !s.failed && (e.SlotDead? || e.MetaSeen?) && e.slot in s.open;
            && EmittedIn(s'.closed) ==
               EmittedIn(s.closed) + (if here && e.MetaSeen? then [Emitted(s.open[e.slot], e.executed)] else [])
            && DiscardedIn(s'.closed) ==
               DiscardedIn(s.closed) + (if here && e.SlotDead? then [Discarded(s.open[e.slot])] else [])
  {
    if !s.failed && (e.SlotDead? || e.MetaSeen?) && e.slot in s.open {
      SplitSnoc(s.closed, if e.MetaSeen? then Emitted(s.open[e.slot], e.executed) else Discarded(s.open[e.slot]));
    }
  }

  /**
   For every stream, what is emitted is exactly the windows ended by block metadata, each with the count its
   metadata carries, and what is discarded is exactly the windows ended by a dead status, both in order.
   */
  lemma {:induction false} OnlyMetadataEmits(events: seq<Event>)
    ensures EmittedIn(Run(events).closed) == EndedByMeta(events)
    ensures DiscardedIn(Run(events).closed) == EndedByDeath(events)
  {
    if events != [] {
      var before, e := events[..|events| - 1], events[|events| - 1];
      OnlyMetadataEmits(before);
      ClosesOnly(Run(before), e);
      FailsOnError(before);
      if NoError(before) && (e.SlotDead? || e.MetaSeen?) {
        OpenIsWindow(before, e.slot);
      }
    }
  }

  // ----- no accepted transaction is lost or repeated

  /** Transactions of the slot that arrived while it was open. */
  function AcceptedTxs(events: seq<Event>, slot: nat): seq<Tx> {
    if events == [] then []
    else
      var before, e := events[..|events| - 1], events[|events| - 1];
      var s := Run(before);
      AcceptedTxs(before, slot) + if !s.failed && slot in s.open && e.TxSeen? && e.slot == slot then [e.tx] else []
  }

  function TxsIn(closed: seq<Closed>): seq<Tx> {
    if closed == [] then [] else TxsIn(closed[..|closed| - 1]) + closed[|closed| - 1].recording.txs
  }

  function OpenTxs(s: State, slot: nat): seq<Tx> {
    if slot in s.open then s.open[slot].txs else []
  }

  lemma TxsSnoc(closed: seq<Closed>, c: Closed)
    ensures TxsIn(closed + [c]) == TxsIn(closed) + c.recording.txs
  {
    assert (closed + [c])[..|closed|] == closed;
  }

  /** Closed recordings of the slot, then the open one. */
  function TxsKept(s: State, slot: nat): seq<Tx> {
    TxsIn(ClosedOf(s.closed, slot)) + OpenTxs(s, slot)
  }

  lemma ClosingKeepsTxs(s: State, e: Event, slot: nat)
    requires OwnSlots(s) && !s.failed && (e.SlotDead? || e.MetaSeen?) && e.slot in s.open
    ensures TxsKept(Step(s, e), slot) == TxsKept(s, slot)
  {
    var c := if e.SlotDead? then Discarded(s.open[e.slot]) else Emitted(s.open[e.slot], e.executed);
    assert Step(s, e) == s.(open := s.open - {e.slot}, closed := s.closed + [c]);
    RemovingKeepsTxs(s, e.slot, c, slot);
  }

  lemma RemovingKeepsTxs(s: State, from: nat, c: Closed, slot: nat)
    requires OwnSlots(s) && from in s.open && c.recording == s.open[from]
    ensures TxsKept(s.(open := s.open - {from}, closed := s.closed + [c]), slot) == TxsKept(s, slot)
  {
    ClosedSnoc(s.closed, c, slot);
    var own := ClosedOf(s.closed, slot);
    if from == slot {
      TxsSnoc(own, c);
      assert TxsKept(s, slot) + [] == TxsKept(s, slot);
    } else {
      assert own + [] == own;
    }
  }

  lemma AcceptingKeepsTxs(s: State, tx: Tx, slot: nat)
    requires !s.failed && slot in s.open
    ensures TxsKept(Step(s, TxSeen(slot, tx)), slot) == TxsKept(s, slot) + [tx]
  {
    var closed := TxsIn(ClosedOf(s.closed, slot));
    assert closed + (s.open[slot].txs + [tx]) == closed + s.open[slot].txs + [tx];
  }

  /**
   Conservation: the transactions accepted for a slot, in arrival order, are those of its emitted and
   discarded recordings followed by those of the recording still open. None is lost, repeated or moved.
   */
  lemma {:induction false} AcceptedAreKept(events: seq<Event>, slot: nat)
    ensures AcceptedTxs(events, slot) == TxsIn(ClosedOf(Run(events).closed, slot)) + OpenTxs(Run(events), slot)
  {
    if events != [] {
      var before, e := events[..|events| - 1], events[|events| - 1];
      AcceptedAreKept(before, slot);
      RunOwnsSlots(before);
      var s := Run(before);
      assert TxsKept(s, slot) + [] == TxsKept(s, slot);
      if !s.failed && (e.SlotDead? || e.MetaSeen?) && e.slot in s.open {
        ClosingKeepsTxs(s, e, slot);
      } else if !s.failed && e.TxSeen? && e.slot == slot && slot in s.open {
        AcceptingKeepsTxs(s, e.tx, slot);
      } else {
        assert TxsKept(Step(s, e), slot) == TxsKept(s, slot);
      }
    }
  }

  // ----- arrival order within a window

  lemma {:induction false} CountTxs(w: seq<Event>, slot: nat, tx: Tx)
    ensures multiset(TxsOf(w, slot))[tx] == multiset(w)[TxSeen(slot, tx)]
  {
    if w != [] {
      CountTxs(w[..|w| - 1], slot, tx);
      SplitLast(w);
    }
  }

  lemma {:induction false} CountEntries(w: seq<Event>, slot: nat, entry: Entry)
    ensures multiset(EntriesOf(w, slot))[entry] == multiset(w)[EntrySeen(slot, entry)]
  {
    if w != [] {
      CountEntries(w[..|w| - 1], slot, entry);
      SplitLast(w);
    }
  }

  /**
   Two streams that differ only in the order of the updates that arrive while a slot is open send the same
   rows for it, provided its transactions and its entries have distinct indices.
   */
  lemma ReorderedUpdatesSendTheSame(pre: seq<Event>, w1: seq<Event>, w2: seq<Event>, slot: nat, executed: nat)
    requires NoError(pre) && slot in Run(pre).open
    requires Quiet(w1, slot) && Quiet(w2, slot) && multiset(w1) == multiset(w2)
    requires DistinctKeys(OpenTxs(Run(pre), slot) + TxsOf(w1, slot), TxKey)
    requires DistinctKeys(Run(pre).open[slot].entries + EntriesOf(w1, slot), EntryKey)
    ensures var r1 := OpenOf(Run(pre + w1), slot);
            var r2 := OpenOf(Run(pre + w2), slot);
            r1.Some? && r2.Some? && Emit(r1.value, executed) == Emit(r2.value, executed)
  {
    FailsOnError(pre);
    RunAppend(pre, w1);
    RunAppend(pre, w2);
    OpenCollects(Run(pre), w1, slot);
    OpenCollects(Run(pre), w2, slot);
    forall tx ensures multiset(TxsOf(w1, slot))[tx] == multiset(TxsOf(w2, slot))[tx] {
      CountTxs(w1, slot, tx);
      CountTxs(w2, slot, tx);
    }
    forall en ensures multiset(EntriesOf(w1, slot))[en] == multiset(EntriesOf(w2, slot))[en] {
      CountEntries(w1, slot, en);
      CountEntries(w2, slot, en);
    }
    assert multiset(TxsOf(w1, slot)) == multiset(TxsOf(w2, slot));
    assert multiset(EntriesOf(w1, slot)) == multiset(EntriesOf(w2, slot));
    ArrivalOrderIsIrrelevant(Run(pre + w1).open[slot], Run(pre + w2).open[slot], executed);
  }

  /** A stream whose closing slot ends the emitting task: a complete transaction and no entry that executed it. */
  lemma TransactionWithoutEntryPanics(info: TxInfo) returns (events: seq<Event>)
    requires info.logs.Some?
    ensures |events| == 3 && events[2].MetaSeen?
    ensures var c := Run(events).closed; |c| == 1 && c[0].Emitted? && Emit(c[0].recording, c[0].executed).panicked
  {
    var tx := Tx(Some(info), None, None);
    var begun := [SlotOpened(0)];
    assert begun[..0] == [];
    assert Run(begun) == State(map[0 := Recording(0, [], [])], [], false);
    var seen := begun + [TxSeen(0, tx)];
    assert seen[..1] == begun;
    assert Run(seen).open[0] == Recording(0, [tx], []) && Run(seen).closed == [];
    events := seen + [MetaSeen(0, 1)];
    assert events[..2] == seen;
    LoneTransactionPanics(tx);
  }

  lemma LoneTransactionPanics(tx: Tx)
    requires Builds(tx)
    ensures Emit(Recording(0, [tx], []), 1).panicked
  {
    EmissionMeaning(Recording(0, [tx], []), 1);
    assert tx in [tx];
  }
}
