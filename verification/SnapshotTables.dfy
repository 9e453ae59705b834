/** The durable snapshot tables, and the transaction that promotes a snapshot. */
module SnapshotTables {
  import opened Outcomes
  import opened ChangeLog

  /** Text keys and instants are numbers; blobs are bytes known by their digests. */
  type ContextId = int
  type Instant = int
  type Blob = seq<nat>
  type Digest = nat

  datatype Key = Key(context: ContextId, version: nat)

  datatype RowState = Building | Current | Superseded

  datatype Details = Details(
    storageKind: string, memberCount: nat, definitionHash: string, sourceWatermark: Option<string>)

  datatype SnapshotRow = SnapshotRow(
    computedAt: Instant,
    dataAsOf: Instant,
    validFrom: Instant,
    validTo: Option<Instant>,
    state: RowState,
    definitionVersion: nat,
    membershipHash: Digest,
    scoreHash: Digest,
    details: Details)

  datatype Payload = Payload(membership: Blob, scores: Option<Blob>)

  datatype MembershipChange = MembershipChange(
    entity: int, kind: Kind, recordedAt: Instant, effectiveAt: Instant, contextVersion: nat,
    source: string, evidenceRef: Option<string>, previousScore: Option<real>, newScore: Option<real>)

  /** The name that the event id is derived from. */
  datatype EventKey = EventKey(contextId: ContextId, version: nat, entity: int, kind: Kind)

  datatype HistoryRow = HistoryRow(contextId: ContextId, key: EventKey, change: MembershipChange)

  datatype ContextStatus = ContextStatus(
    currentSnapshot: Option<nat>,
    lastRefreshedAt: Option<Instant>,
    dataAsOf: Option<Instant>,
    lastError: Option<string>)

  datatype Tables = Tables(
    payloads: map<Key, Payload>,
    snapshots: map<Key, SnapshotRow>,
    contexts: map<Key, ContextStatus>,
    history: seq<HistoryRow>)

  datatype Entry = Entry(
    contextId: ContextId, version: nat, lastRefreshedAt: Option<Instant>, dataAsOf: Option<Instant>)

  datatype Snapshot = Snapshot(
    version: nat, computedAt: Instant, dataAsOf: Instant, validFrom: Instant, details: Details)

  datatype Promotion = Promotion(
    entry: Entry, snapshot: Snapshot, membership: Blob, scores: map<int, real>, events: seq<MembershipChange>)

  /** Hashing and score encoding, known only as functions. */
  datatype Codec = Codec(
    sha: Blob -> Digest, encode: map<int, real> -> Blob, decode: Option<Blob> -> map<int, real>)

  function KeyOf(p: Promotion): Key {
    Key(p.entry.contextId, p.snapshot.version)
  }

  // ---- The statements of a promotion -----------------------------------------------------

  function BuildingRow(p: Promotion, codec: Codec): SnapshotRow {
    SnapshotRow(
      p.snapshot.computedAt, p.snapshot.dataAsOf, p.snapshot.validFrom, None, Building, p.entry.version,
      codec.sha(p.membership), codec.sha(codec.encode(p.scores)), p.snapshot.details)
  }

  /** End the validity of the context's current row. */
  function Supersede(rows: map<Key, SnapshotRow>, contextId: ContextId, at: Instant): map<Key, SnapshotRow> {
    map k | k in rows ::
      if k.context == contextId && rows[k].state == Current
      then rows[k].(state := Superseded, validTo := Some(at))
      else rows[k]
  }

  function MakeCurrent(rows: map<Key, SnapshotRow>, key: Key): map<Key, SnapshotRow> {
    if key in rows then rows[key := rows[key].(state := Current)] else rows
  }

  function Refreshed(contexts: map<Key, ContextStatus>, p: Promotion): map<Key, ContextStatus> {
    var key := Key(p.entry.contextId, p.entry.version);
    if key in contexts
    then contexts[key := ContextStatus(Some(p.snapshot.version), p.entry.lastRefreshedAt, p.entry.dataAsOf, None)]
    else contexts
  }

  function EventKeyOf(p: Promotion, e: MembershipChange): EventKey {
    EventKey(p.entry.contextId, p.snapshot.version, e.entity, e.kind)
  }

  predicate Recorded(history: seq<HistoryRow>, key: EventKey) {
    exists i :: 0 <= i < |history| && history[i].key == key
  }

  /** `INSERT OR IGNORE` against the unique event id. */
  function InsertEvent(history: seq<HistoryRow>, p: Promotion, e: MembershipChange): seq<HistoryRow> {
    var key := EventKeyOf(p, e);
    if Recorded(history, key) then history else history + [HistoryRow(p.entry.contextId, key, e)]
  }

  /** The positions that are marked. */
  function Positions(keep: seq<bool>): (at: seq<nat>)
    ensures forall i :: 0 <= i < |at| ==> at[i] < |keep|
  {
    if keep == [] then []
    else Positions(keep[..|keep| - 1]) + if keep[|keep| - 1] then [|keep| - 1] else []
  }

  /** What stands at the marked positions. */
  function Marked<T>(all: seq<T>, keep: seq<bool>): seq<T>
    requires |keep| == |all|
  {
    seq(|Positions(keep)|, i requires 0 <= i < |Positions(keep)| => all[Positions(keep)[i]])
  }

  /** They are in ascending order, each once, and all of them. */
  lemma {:induction false} PositionsExact(keep: seq<bool>, k: nat)
    ensures forall i, j :: 0 <= i < j < |Positions(keep)| ==> Positions(keep)[i] < Positions(keep)[j]
    ensures k in Positions(keep) <==> k < |keep| && keep[k]
  {
    if keep != [] {
      PositionsExact(keep[..|keep| - 1], k);
    }
  }

  lemma MarkedNext<T>(all: seq<T>, keep: seq<bool>, x: T, b: bool, all': seq<T>, keep': seq<bool>)
    requires |keep| == |all| && all' == all + [x] && keep' == keep + [b]
    ensures Marked(all', keep') == if b then Marked(all, keep) + [x] else Marked(all, keep)
  {
    assert keep'[..|keep|] == keep;
  }

  lemma MarkedIn<T>(all: seq<T>, keep: seq<bool>, x: T)
    requires |keep| == |all|
    ensures x in Marked(all, keep) <==> exists k :: 0 <= k < |all| && keep[k] && all[k] == x
  {
    if x in Marked(all, keep) {
      var i :| 0 <= i < |Marked(all, keep)| && Marked(all, keep)[i] == x;
      PositionsExact(keep, Positions(keep)[i]);
    }
    if k: nat :| k < |all| && keep[k] && all[k] == x {
      PositionsExact(keep, k);
      var i :| 0 <= i < |Positions(keep)| && Positions(keep)[i] == k;
      assert Marked(all, keep)[i] == x;
    }
  }

  lemma {:induction false} AllMarked<T>(all: seq<T>, keep: seq<bool>)
    requires |keep| == |all| && forall k :: 0 <= k < |keep| ==> keep[k]
    ensures Marked(all, keep) == all
  {
    if all != [] {
      var n := |all| - 1;
      AllMarked(all[..n], keep[..n]);
      MarkedNext(all[..n], keep[..n], all[n], keep[n], all, keep);
    }
  }

  function InsertEvents(history: seq<HistoryRow>, p: Promotion, n: nat): seq<HistoryRow>
    requires n <= |p.events|
  {
    if n == 0 then history else InsertEvent(InsertEvents(history, p, n - 1), p, p.events[n - 1])
  }

  /** The tables after the first `n` statements of a promotion. */
  function After(t: Tables, p: Promotion, codec: Codec, n: nat): Tables
    requires n <= 5 + |p.events|
  {
    var key := KeyOf(p);
    var payload := Payload(p.membership, Some(codec.encode(p.scores)));
    var t1 := if n < 1 then t else t.(payloads := t.payloads[key := payload]);
    var t2 := if n < 2 then t1 else t1.(snapshots := t1.snapshots[key := BuildingRow(p, codec)]);
    var t3 := if n < 3 then t2 else t2.(snapshots := Supersede(t2.snapshots, key.context, p.snapshot.computedAt));
    var t4 := if n < 4 then t3 else t3.(snapshots := MakeCurrent(t3.snapshots, key));
    var t5 := if n < 5 then t4 else t4.(contexts := Refreshed(t4.contexts, p));
    if n < 6 then t5 else t5.(history := InsertEvents(t5.history, p, n - 5))
  }

  function Promoted(t: Tables, p: Promotion, codec: Codec): Tables {
    After(t, p, codec, 5 + |p.events|)
  }

  // ---- What every committed state keeps --------------------------------------------------

  /** The partial unique index: at most one current row a context. */
  ghost predicate OneCurrent(rows: map<Key, SnapshotRow>) {
    forall k, k' {:trigger k in rows, k' in rows} ::
      k in rows && k' in rows && k.context == k'.context && rows[k].state == Current && rows[k'].state == Current ==>
        k == k'
  }

  ghost predicate Latest(rows: map<Key, SnapshotRow>, k: Key) {
    forall k' {:trigger k' in rows} :: k' in rows && k'.context == k.context ==> k'.version <= k.version
  }

  /** A row is current exactly when it is the greatest version of its context; no other row is visible. */
  ghost predicate CurrentIsLatest(rows: map<Key, SnapshotRow>) {
    forall k {:trigger rows[k]} :: k in rows ==> rows[k].state == if Latest(rows, k) then Current else Superseded
  }

  ghost predicate Successor(rows: map<Key, SnapshotRow>, k: Key, k': Key) {
    && k in rows && k' in rows && k.context == k'.context && k.version < k'.version
    && forall j {:trigger j in rows} :: j in rows && j.context == k.context && k.version < j.version ==>
        k'.version <= j.version
  }

  /** A superseded row is valid until its successor was computed, and the current row is still valid. */
  ghost predicate Tiled(rows: map<Key, SnapshotRow>) {
    && (forall k, k' :: Successor(rows, k, k') ==> rows[k].validTo == Some(rows[k'].computedAt))
    && (forall k {:trigger rows[k]} :: k in rows && Latest(rows, k) ==> rows[k].validTo == None)
  }

  /** Snapshots and payloads have the same keys, and the recorded digests are those of the payloads. */
  ghost predicate Matched(t: Tables, codec: Codec) {
    && t.snapshots.Keys == t.payloads.Keys
    && forall k :: k in t.snapshots ==> Intact(t.snapshots[k], t.payloads[k], codec)
  }

  predicate Intact(row: SnapshotRow, payload: Payload, codec: Codec) {
    && codec.sha(payload.membership) == row.membershipHash
    && (payload.scores.Some? ==> codec.sha(payload.scores.value) == row.scoreHash)
  }

  ghost predicate Sound(t: Tables, codec: Codec) {
    CurrentIsLatest(t.snapshots) && Tiled(t.snapshots) && Matched(t, codec)
  }

  ghost predicate NewVersion(rows: map<Key, SnapshotRow>, key: Key) {
    forall k {:trigger k in rows} :: k in rows && k.context == key.context ==> k.version < key.version
  }

  lemma PromotedRows(t: Tables, p: Promotion, codec: Codec)
    requires KeyOf(p) !in t.snapshots
    ensures var rows := Promoted(t, p, codec).snapshots;
            var key := KeyOf(p);
            && rows.Keys == t.snapshots.Keys + {key}
            && rows[key] == BuildingRow(p, codec).(state := Current)
            && (forall k :: k in t.snapshots ==>
                  rows[k] == Supersede(t.snapshots, key.context, p.snapshot.computedAt)[k])
  {}

  lemma LatestAfter(rows: map<Key, SnapshotRow>, rows': map<Key, SnapshotRow>, key: Key, k: Key)
    requires rows'.Keys == rows.Keys + {key}
    requires NewVersion(rows, key)
    requires k in rows'
    ensures Latest(rows', k) <==> k == key || (k.context != key.context && Latest(rows, k))
  {}

  lemma PromotionStates(t: Tables, p: Promotion, codec: Codec)
    requires CurrentIsLatest(t.snapshots) && NewVersion(t.snapshots, KeyOf(p))
    ensures CurrentIsLatest(Promoted(t, p, codec).snapshots)
  {
    var rows, rows', key := t.snapshots, Promoted(t, p, codec).snapshots, KeyOf(p);
    PromotedRows(t, p, codec);
    forall k | k in rows' ensures rows'[k].state == if Latest(rows', k) then Current else Superseded {
      LatestAfter(rows, rows', key, k);
    }
  }

  lemma PromotionMatches(t: Tables, p: Promotion, codec: Codec)
    requires Matched(t, codec) && KeyOf(p) !in t.snapshots
    ensures Matched(Promoted(t, p, codec), codec)
  {
    PromotedRows(t, p, codec);
    var t', key := Promoted(t, p, codec), KeyOf(p);
    assert t'.payloads == t.payloads[key := Payload(p.membership, Some(codec.encode(p.scores)))];
    forall k | k in t'.snapshots ensures Intact(t'.snapshots[k], t'.payloads[k], codec) {
      if k != key {
        assert Intact(t.snapshots[k], t.payloads[k], codec);
      }
    }
  }

  /** A version-increasing promotion keeps every invariant of the tables. */
  lemma PromotionKeeps(t: Tables, p: Promotion, codec: Codec)
    requires Sound(t, codec) && NewVersion(t.snapshots, KeyOf(p))
    ensures Sound(Promoted(t, p, codec), codec)
  {
    PromotedRows(t, p, codec);
    PromotionStates(t, p, codec);
    PromotionMatches(t, p, codec);
    PromotionTiles(t.snapshots, Promoted(t, p, codec).snapshots, KeyOf(p));
  }

  /** Increasing versions are exactly what keeps the current row the greatest. */
  lemma IncreasingExact(t: Tables, p: Promotion, codec: Codec)
    requires CurrentIsLatest(t.snapshots) && KeyOf(p) !in t.snapshots
    ensures CurrentIsLatest(Promoted(t, p, codec).snapshots) <==> NewVersion(t.snapshots, KeyOf(p))
  {
    var rows', key := Promoted(t, p, codec).snapshots, KeyOf(p);
    PromotedRows(t, p, codec);
    if CurrentIsLatest(rows') {
      assert key in rows' && Latest(rows', key);
      assert forall k :: k in t.snapshots ==> k in rows';
    }
    if NewVersion(t.snapshots, key) {
      PromotionStates(t, p, codec);
    }
  }

  /** The one-current index holds after every single statement, so no statement can violate it. */
  lemma OneCurrentThroughout(t: Tables, p: Promotion, codec: Codec, n: nat)
    requires OneCurrent(t.snapshots) && KeyOf(p) !in t.snapshots
    requires n <= 5 + |p.events|
    ensures OneCurrent(After(t, p, codec, n).snapshots)
  {
    var key := KeyOf(p);
    var rows2 := t.snapshots[key := BuildingRow(p, codec)];
    var rows3 := Supersede(rows2, key.context, p.snapshot.computedAt);
    assert OneCurrent(rows2);
    assert forall k {:trigger k in rows3} :: k in rows3 && k.context == key.context ==> rows3[k].state != Current;
    assert OneCurrent(rows3);
    assert OneCurrent(MakeCurrent(rows3, key));
  }

  lemma PromotionTiles(rows: map<Key, SnapshotRow>, rows': map<Key, SnapshotRow>, key: Key)
    requires CurrentIsLatest(rows) && Tiled(rows) && NewVersion(rows, key)
    requires rows'.Keys == rows.Keys + {key}
    requires rows'[key].validTo == None
    requires forall k {:trigger k in rows} :: k in rows ==>
        rows'[k] == Supersede(rows, key.context, rows'[key].computedAt)[k]
    ensures Tiled(rows')
  {
    forall k, k' | Successor(rows', k, k') ensures rows'[k].validTo == Some(rows'[k'].computedAt) {
      assert k != key;
      if k' == key {
        assert Latest(rows, k) by {
          assert forall j :: j in rows ==> j in rows';
        }
      } else {
        assert Successor(rows, k, k') by {
          assert forall j :: j in rows ==> j in rows';
        }
        assert !Latest(rows, k);
      }
    }
    forall k | k in rows' && Latest(rows', k) ensures rows'[k].validTo == None {
      LatestAfter(rows, rows', key, k);
    }
  }
}
