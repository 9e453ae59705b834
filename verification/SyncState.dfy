/** Durable synchronizer state: one watermark a context, and the ids of the events applied to it. */
module SyncState {
  import opened Outcomes

  datatype Progress = Progress(watermark: Option<nat>, seen: set<nat>)

  const NOTHING_YET := Progress(None, {})

  type EventKey = (string, nat)

  /** `INSERT OR IGNORE` for each event: the watermark recorded first for an event stays. */
  function Inserted(rows: map<EventKey, nat>, contextId: string, events: seq<(nat, nat)>): map<EventKey, nat> {
    if events == [] then rows
    else
      var before := Inserted(rows, contextId, events[..|events| - 1]);
      var (id, watermark) := events[|events| - 1];
      if (contextId, id) in before then before else before[(contextId, id) := watermark]
  }

  function SeenIn(rows: map<EventKey, nat>, contextId: string): set<nat> {
    set key | key in rows && key.0 == contextId :: key.1
  }

  lemma {:induction false} InsertedSeen(rows: map<EventKey, nat>, contextId: string,
                                        events: seq<(nat, nat)>, other: string)
    ensures SeenIn(Inserted(rows, contextId, events), other) ==
            SeenIn(rows, other) + if other == contextId then (set e | e in events :: e.0) else {}
    ensures forall key :: key in rows ==>
              key in Inserted(rows, contextId, events) && Inserted(rows, contextId, events)[key] == rows[key]
  {
    if events != [] {
      var init, last := events[..|events| - 1], events[|events| - 1];
      InsertedSeen(rows, contextId, init, other);
      assert (set e | e in events :: e.0) == (set e | e in init :: e.0) + {last.0};
      var before := Inserted(rows, contextId, init);
      if (contextId, last.0) in before {
        assert contextId == other ==> last.0 in SeenIn(before, other);
      } else {
        var after := before[(contextId, last.0) := last.1];
        assert forall key :: key in after <==> key in before || key == (contextId, last.0);
        if other == contextId {
          assert (contextId, last.0) in after;
          assert SeenIn(after, other) == SeenIn(before, other) + {last.0};
        } else {
          assert SeenIn(after, other) == SeenIn(before, other);
        }
      }
    }
  }

  /** Every event has its row then, and a row that was not there before records what one of the events gives for it. */
  lemma {:induction false} InsertedRows(rows: map<EventKey, nat>, contextId: string, events: seq<(nat, nat)>)
    ensures forall e :: e in events ==> (contextId, e.0) in Inserted(rows, contextId, events)
    ensures forall key :: key in Inserted(rows, contextId, events) && key !in rows ==>
              key.0 == contextId && (key.1, Inserted(rows, contextId, events)[key]) in events
  {
    if events != [] {
      var init, last := events[..|events| - 1], events[|events| - 1];
      InsertedRows(rows, contextId, init);
      assert last == (last.0, last.1);
    }
  }

  class StateRepository {
    var committedWatermarks: map<string, nat>
    var syncEvents: map<EventKey, nat>

    constructor ()
      ensures committedWatermarks == map[] && syncEvents == map[]
    {
      committedWatermarks, syncEvents := map[], map[];
    }

    function Saved(contextId: string): Progress
      reads this
    {
      Progress(if contextId in committedWatermarks then Some(committedWatermarks[contextId]) else None,
               SeenIn(syncEvents, contextId))
    }

    method Load(contextId: string) returns (watermark: Option<nat>, seen: set<nat>)
      ensures Progress(watermark, seen) == Saved(contextId)
    {
      watermark := if contextId in committedWatermarks then Some(committedWatermarks[contextId]) else None;
      seen := set key | key in syncEvents && key.0 == contextId :: key.1;
    }

    /**
     * One transaction: begin, an insert for every event, the watermark, commit. Statement number `failAt`
     * raises, which rolls everything back.
     */
    method Commit(contextId: string, watermark: nat, events: seq<(nat, nat)>, failAt: Option<nat>) returns (ok: bool)
      modifies this
      ensures ok <==> failAt == None || failAt.value > |events| + 2
      ensures !ok ==> committedWatermarks == old(committedWatermarks) && syncEvents == old(syncEvents)
      ensures ok ==>
                && Saved(contextId) ==
                   Progress(Some(watermark), old(Saved(contextId)).seen + set e | e in events :: e.0)
                && (forall key :: key in old(syncEvents) ==>
                    key in syncEvents && syncEvents[key] == old(syncEvents)[key])
                && (forall key :: key in syncEvents && key !in old(syncEvents) ==>
                    key.0 == contextId && (key.1, syncEvents[key]) in events)
      ensures forall other :: other != contextId ==> Saved(other) == old(Saved(other))
    {
      var savedWatermarks, savedEvents := committedWatermarks, syncEvents;
      if failAt == Some(0) {
        return false;
      }
      for i := 0 to |events|
        invariant committedWatermarks == savedWatermarks
        invariant syncEvents == Inserted(savedEvents, contextId, events[..i])
        invariant failAt == None || failAt.value > i
      {
        assert events[..i + 1][..i] == events[..i];
        if failAt == Some(i + 1) {
          committedWatermarks, syncEvents := savedWatermarks, savedEvents;
          return false;
        }
        var (id, eventWatermark) := events[i];
        if (contextId, id) !in syncEvents {
          syncEvents := syncEvents[(contextId, id) := eventWatermark];
        }
      }
      assert events[..|events|] == events;
      if failAt == Some(|events| + 1) {
        committedWatermarks, syncEvents := savedWatermarks, savedEvents;
        return false;
      }
      committedWatermarks := committedWatermarks[contextId := watermark];
      if failAt == Some(|events| + 2) {
        committedWatermarks, syncEvents := savedWatermarks, savedEvents;
        return false;
      }
      forall other ensures SeenIn(syncEvents, other) == SeenIn(savedEvents, other) +
                             if other == contextId then (set e | e in events :: e.0) else {} {
        InsertedSeen(savedEvents, contextId, events, other);
      }
      InsertedSeen(savedEvents, contextId, events, contextId);
      InsertedRows(savedEvents, contextId, events);
      return true;
    }
  }
}
