/** The repository over the snapshot tables: promote, prune and hydrate. */
module SnapshotRepository {
  import opened Outcomes
  import opened SnapshotTables
  import opened SnapshotPruning
  import opened SnapshotHydration

  class SnapshotRepository {
    const codec: Codec
    var payloads: map<Key, Payload>
    var snapshots: map<Key, SnapshotRow>
    var contexts: map<Key, ContextStatus>
    var history: seq<HistoryRow>

    constructor (codec: Codec, contexts: map<Key, ContextStatus>)
      ensures this.codec == codec && View() == Tables(map[], map[], contexts, [])
    {
      this.codec, this.contexts := codec, contexts;
      payloads, snapshots, history := map[], map[], [];
    }

    function View(): Tables
      reads this
    {
      Tables(payloads, snapshots, contexts, history)
    }

    /** Undo everything since the transaction began. */
    method Rollback(begun: Tables)
      modifies this
      ensures View() == begun
    {
      payloads, snapshots, contexts, history := begun.payloads, begun.snapshots, begun.contexts, begun.history;
    }

    /** Whether the unique index allows this row to become current. */
    predicate CurrentFree(key: Key)
      reads this
    {
      forall k {:trigger k in snapshots} ::
          k in snapshots && k.context == key.context && snapshots[k].state == Current ==> k == key
    }

    /** The row statements: payload, building row, supersede, make current, context status. */
    method WriteRows(p: Promotion, failAt: Option<nat>) returns (ok: bool)
      modifies this
      ensures ok ==> View() == After(old(View()), p, codec, 5) && (failAt == None || failAt.value > 5)
      ensures ok ==> KeyOf(p) !in old(payloads) && KeyOf(p) !in old(snapshots)
      ensures OneCurrent(old(snapshots)) ==>
                (ok <==> KeyOf(p) !in old(payloads) && KeyOf(p) !in old(snapshots)
                         && (failAt == None || failAt.value > 5))
    {
      var key := KeyOf(p);
      if key in payloads || (failAt.Some? && failAt.value <= 1) {
        return false;
      }
      payloads := payloads[key := Payload(p.membership, Some(codec.encode(p.scores)))];
      if key in snapshots || failAt == Some(2) {
        return false;
      }
      snapshots := snapshots[key := BuildingRow(p, codec)];
      if failAt == Some(3) {
        return false;
      }
      snapshots := Supersede(snapshots, key.context, p.snapshot.computedAt);
      if !CurrentFree(key) || failAt == Some(4) {
        return false;
      }
      snapshots := MakeCurrent(snapshots, key);
      if failAt == Some(5) {
        return false;
      }
      contexts := Refreshed(contexts, p);
      return true;
    }

    /** The history statements and the commit. */
    method WriteHistory(p: Promotion, failAt: Option<nat>) returns (ok: bool)
      requires failAt.Some? ==> failAt.value > 5
      modifies this`history
      ensures ok <==> failAt == None || failAt.value > 6 + |p.events|
      ensures ok ==> history == InsertEvents(old(history), p, |p.events|)
    {
      for i := 0 to |p.events|
        invariant history == InsertEvents(old(history), p, i)
        invariant failAt == None || failAt.value > 5 + i
      {
        if failAt == Some(6 + i) {
          return false;
        }
        history := InsertEvent(history, p, p.events[i]);
      }
      return failAt != Some(6 + |p.events|);
    }

    /**
     * Promote a snapshot in one transaction. A taken key, a second current row or a failure at statement
     * number `failAt` (zero to begin, the last to commit) rolls everything back.
     */
    method Promote(p: Promotion, failAt: Option<nat>) returns (ok: bool)
      modifies this
      ensures !ok ==> View() == old(View())
      ensures ok ==> View() == Promoted(old(View()), p, codec)
      ensures ok ==> KeyOf(p) !in old(payloads) && KeyOf(p) !in old(snapshots)
      ensures ok ==> var key := Key(p.entry.contextId, p.entry.version);
                     var status := ContextStatus(
                                     Some(p.snapshot.version), p.entry.lastRefreshedAt, p.entry.dataAsOf, None);
                     contexts == if key in old(contexts) then old(contexts)[key := status] else old(contexts)
      ensures OneCurrent(old(snapshots)) ==>
                (ok <==> KeyOf(p) !in old(payloads) && KeyOf(p) !in old(snapshots)
                         && (failAt == None || failAt.value > 6 + |p.events|))
    {
      var begun := View();
      ok := WriteRows(p, failAt);
      if ok {
        ok := WriteHistory(p, failAt);
      }
      if !ok {
        Rollback(begun);
      }
    }

    // ---- Prune ---------------------------------------------------------------------------

    /** The deletions of a prune, and the commit. */
    method DeleteOlder(c: ContextId, cutoff: Instant, anchor: nat, failAt: Option<nat>) returns (ok: bool)
      modifies this
      ensures ok <==> failAt == None || failAt.value > 4
      ensures ok ==> View() == Pruned(old(View()), c, cutoff, anchor)
    {
      if failAt.Some? && failAt.value <= 1 {
        return false;
      }
      payloads := map k | k in payloads && Kept(k, c, anchor) :: payloads[k];
      if failAt == Some(2) {
        return false;
      }
      snapshots := map k | k in snapshots && Kept(k, c, anchor) :: snapshots[k];
      if failAt == Some(3) {
        return false;
      }
      history := KeptHistory(history, c, cutoff);
      return failAt != Some(4);
    }

    /**
     * Delete what is older than the anchor: the greatest (data_as_of, version) not after the cutoff. Without
     * an anchor nothing happens; a failure at statement `failAt` rolls back.
     */
    method Prune(c: ContextId, cutoff: Instant, failAt: Option<nat>) returns (ok: bool, ghost anchor: nat)
      modifies this
      ensures NoneBy(old(snapshots), c, cutoff) ==> ok && View() == old(View())
      ensures !NoneBy(old(snapshots), c, cutoff) ==>
                && IsAsOf(old(snapshots), c, cutoff, anchor)
                && (ok <==> failAt == None || failAt.value > 4)
                && View() == (if ok then Pruned(old(View()), c, cutoff, anchor) else old(View()))
                && (ok ==> history == Marked(old(history), Lasting(old(history), c, cutoff)))
                && (ok ==> forall k {:trigger k in snapshots} :: k in snapshots <==>
                             k in old(snapshots) && (k.context != c || anchor <= k.version))
    {
      anchor := 0;
      EligibleNone(snapshots, c, cutoff);
      var eligible := Eligible(snapshots, c, cutoff);
      if eligible == {} {
        return true, anchor;
      }
      var begun := View();
      ghost var _ := AsOfExists(snapshots, c, cutoff);
      HistoryKept(history, c, cutoff);
      var version :| version in eligible && IsAsOf(snapshots, c, cutoff, version);
      anchor := version;
      ok := DeleteOlder(c, cutoff, version, failAt);
      if !ok {
        Rollback(begun);
      }
    }

    // ---- Hydrate -------------------------------------------------------------------------

    /** Check the joined rows in order and hand them to the store, refusing the first bad one. */
    method HydrateSnapshots(t: Tables) returns (r: Result<Runtime, HydrationError>)
      ensures r == HydrateRows(t, Ordered(Joined(t)), codec)
    {
      var keys := Ordered(Joined(t));
      var runtime: Runtime := map[];
      for i := 0 to |keys|
        invariant HydrateRows(t, keys[..i], codec) == Ok(runtime)
      {
        assert keys[..i + 1][..i] == keys[..i];
        var row := HydrateRow(t, keys[i], codec, runtime);
        if row.Err? {
          ErrorStays(t, keys, i + 1, codec);
          return row;
        }
        runtime := row.value;
      }
      assert keys[..|keys|] == keys;
      return Ok(runtime);
    }

    /** The history in the order of its ids. */
    method HydrateHistory(rows: seq<HistoryRow>) returns (changes: seq<(ContextId, MembershipChange)>)
      ensures |changes| == |rows|
      ensures forall i :: 0 <= i < |rows| ==> changes[i] == (rows[i].contextId, rows[i].change)
    {
      changes := [];
      for i := 0 to |rows|
        invariant |changes| == i
        invariant forall j :: 0 <= j < i ==> changes[j] == (rows[j].contextId, rows[j].change)
      {
        changes := changes + [(rows[i].contextId, rows[i].change)];
      }
    }

    /**
     * Rebuild the runtime from the joined rows in order, refusing the first corrupt payload or version gap;
     * then hand over the history in the order of its ids.
     */
    method HydrateRuntime()
      returns (r: Result<Runtime, HydrationError>, changes: seq<(ContextId, MembershipChange)>)
      ensures r.Ok? <==> Restorable(View(), codec)
      ensures r.Err? ==> FirstFlaw(View(), codec, r.error)
      ensures r.Ok? ==> Rebuilt(View(), codec, r.value)
      ensures r == HydrateRows(View(), Ordered(Joined(View())), codec)
      ensures |changes| == if r.Ok? then |history| else 0
      ensures forall i :: 0 <= i < |changes| ==> changes[i] == (history[i].contextId, history[i].change)
    {
      HydrateExact(View(), codec);
      HydrateRefusal(View(), codec);
      HydrateRebuilds(View(), codec);
      r := HydrateSnapshots(View());
      changes := [];
      if r.Ok? {
        changes := HydrateHistory(history);
      }
    }
  }
}
