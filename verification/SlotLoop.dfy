/** The event loop over heap-allocated recordings. */
module SlotLoop {
  import opened SlotRows
  import opened SlotRecorder

  class SlotLoop {
    var recordings: map<nat, SlotRecording>
    var closed: seq<Closed>

    constructor ()
      ensures Valid() && View() == Init
    {
      recordings, closed := map[], [];
    }

    /** Every recording is filed under its own slot, so recordings of different slots are different objects. */
    ghost predicate Valid()
      reads this, recordings.Values
    {
      forall s :: s in recordings ==> recordings[s].slot == s
    }

    ghost function View(): State
      reads this, recordings.Values
    {
      State(map s | s in recordings :: recordings[s].Value(), closed, false)
    }

    /** Puts an empty recording into the map. */
    method Open(slot: nat)
      requires Valid() && slot !in recordings
      modifies this`recordings
      ensures slot in recordings && fresh(recordings[slot]) && recordings[slot].Value() == Recording(slot, [], [])
      ensures recordings == old(recordings)[slot := recordings[slot]]
    {
      var recording := new SlotRecording(slot);
      recordings := recordings[slot := recording];
    }

    /** Takes a slot's recording out of the map. */
    method Close(slot: nat, c: Closed)
      requires Valid() && slot in recordings
      modifies this
      ensures Valid() && recordings == old(recordings) - {slot} && closed == old(closed) + [c]
    {
      closed := closed + [c];
      recordings := recordings - {slot};
    }

    /** One message other than a stream error. */
    method Handle(e: Event)
      requires Valid() && !e.StreamError?
      modifies this, recordings.Values
      ensures Valid() && View() == Step(old(View()), e)
      ensures fresh(recordings.Values - old(recordings.Values))
    {
      match e
      case SlotOpened(slot) =>
        if slot !in recordings {
          Open(slot);
        }
      case SlotDead(slot) =>
        if slot in recordings {
          Close(slot, Discarded(recordings[slot].Value()));
        }
      case SlotOther(_) =>
      case TxSeen(slot, tx) =>
        if slot in recordings {
          recordings[slot].AddTransaction(tx);
        }
      case EntrySeen(slot, entry) =>
        if slot in recordings {
          recordings[slot].AddEntryUpdate(entry);
        }
      case MetaSeen(slot, executed) =>
        if slot in recordings {
          Close(slot, Emitted(recordings[slot].Value(), executed));
        }
      case Unsupported =>
    }

    /** The loop: reads the stream to its end or to the first error. */
    method Subscribe(events: seq<Event>) returns (failed: bool)
      requires Valid() && View() == Init
      modifies this, recordings.Values
      ensures Valid() && View().(failed := failed) == Run(events)
      ensures EmittedIn(closed) == EndedByMeta(events) && DiscardedIn(closed) == EndedByDeath(events)
    {
      OnlyMetadataEmits(events);
      failed := false;
      for i := 0 to |events|
        invariant Valid() && fresh(recordings.Values - old(recordings.Values))
        invariant View() == Run(events[..i])
      {
        assert events[..i + 1][..i] == events[..i];
        if events[i].StreamError? {
          StopsOnError(events, i);
          return true;
        }
        Handle(events[i]);
      }
      assert events[..|events|] == events;
    }
  }

  lemma {:induction false} StopsOnError(events: seq<Event>, i: nat)
    requires i < |events| && events[i].StreamError? && !Run(events[..i]).failed
    ensures Run(events) == Run(events[..i]).(failed := true)
    decreases |events|
  {
    var n := |events| - 1;
    if i < n {
      assert events[..n][..i] == events[..i];
      StopsOnError(events[..n], i);
    }
  }
}
