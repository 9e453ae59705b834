/** Rebuilding the runtime from the tables, and what a run of promotions leaves to rebuild. */
module SnapshotHydration {
  import opened Outcomes
  import opened SnapshotTables

  /** What the membership store receives for one row. */
  datatype Restored = Restored(
    membership: Blob, scores: map<int, real>, computedAt: Instant, dataAsOf: Instant, details: Details)

  datatype HydrationError =
    | CorruptMembership(key: Key)
    | CorruptScores(key: Key)
    | NonContiguous(key: Key)

  type Runtime = map<ContextId, seq<Restored>>

  function HistoryOf(runtime: Runtime, c: ContextId): seq<Restored> {
    if c in runtime then runtime[c] else []
  }

  /** Text order of (context, version). */
  predicate Before(a: Key, b: Key) {
    a.context < b.context || (a.context == b.context && a.version < b.version)
  }

  lemma {:induction false} FirstKey(s: set<Key>) returns (m: Key)
    requires s != {}
    ensures m in s && forall y :: y in s ==> y == m || Before(m, y)
  {
    assert (forall y :: y !in s) ==> s == {};
    var x :| x in s;
    if s == {x} {
      m := x;
    } else {
      var y := FirstKey(s - {x});
      m := if Before(x, y) then x else y;
      assert forall z :: z in s ==> z == x || z in s - {x};
      assert x == Key(x.context, x.version) && y == Key(y.context, y.version);
    }
  }

  lemma FirstKeyExists(s: set<Key>)
    requires s != {}
    ensures exists m :: m in s && forall y :: y in s ==> y == m || Before(m, y)
  {
    var _ := FirstKey(s);
  }

  /** `ORDER BY context_id, version`. */
  function Ordered(s: set<Key>): (keys: seq<Key>)
    ensures forall k :: k in keys <==> k in s
  {
    if s == {} then []
    else
      FirstKeyExists(s);
      var m :| m in s && forall y :: y in s ==> y == m || Before(m, y);
      [m] + Ordered(s - {m})
  }

  ghost predicate Ascending(keys: seq<Key>) {
    forall i, j :: 0 <= i < j < |keys| ==> Before(keys[i], keys[j])
  }

  lemma {:induction false} OrderedLists(s: set<Key>)
    ensures Ascending(Ordered(s))
  {
    if s != {} {
      FirstKeyExists(s);
      var m :| m in s && forall y :: y in s ==> y == m || Before(m, y);
      OrderedLists(s - {m});
      var rest := Ordered(s - {m});
      forall i, j | 0 <= i < j < |[m] + rest| ensures Before(([m] + rest)[i], ([m] + rest)[j]) {
        assert ([m] + rest)[j] == rest[j - 1] && rest[j - 1] in rest;
      }
    }
  }

  /** The rows that hydration reads: visible snapshots joined with their payloads. */
  function Joined(t: Tables): set<Key> {
    set k | k in t.snapshots && k in t.payloads && t.snapshots[k].state != Building
  }

  function Restore(t: Tables, k: Key, codec: Codec): Restored
    requires k in Joined(t)
  {
    var row := t.snapshots[k];
    Restored(t.payloads[k].membership, codec.decode(t.payloads[k].scores), row.computedAt, row.dataAsOf, row.details)
  }

  /** Check one row, hand it to the store, and check the version the store gives it. */
  function HydrateRow(t: Tables, k: Key, codec: Codec, runtime: Runtime): Result<Runtime, HydrationError>
    requires k in Joined(t)
  {
    var row, payload := t.snapshots[k], t.payloads[k];
    if codec.sha(payload.membership) != row.membershipHash then Err(CorruptMembership(k))
    else if payload.scores.Some? && codec.sha(payload.scores.value) != row.scoreHash then Err(CorruptScores(k))
    else
      var restored := HistoryOf(runtime, k.context) + [Restore(t, k, codec)];
      if |restored| != k.version then Err(NonContiguous(k)) else Ok(runtime[k.context := restored])
  }

  function HydrateRows(t: Tables, keys: seq<Key>, codec: Codec): Result<Runtime, HydrationError>
    requires forall k :: k in keys ==> k in Joined(t)
  {
    if keys == [] then Ok(map[])
    else
      var before := HydrateRows(t, keys[..|keys| - 1], codec);
      if before.Err? then before else HydrateRow(t, keys[|keys| - 1], codec, before.value)
  }

  /** All payloads are intact, and the versions of every context count from one without a gap. */
  ghost predicate Restorable(t: Tables, codec: Codec) {
    && (forall k :: k in Joined(t) ==> Intact(t.snapshots[k], t.payloads[k], codec))
    && (forall k {:trigger k in Joined(t)} :: k in Joined(t) ==>
          CountsFromOne(t, k))
  }

  /** All versions of the context from one to this are there. */
  ghost predicate CountsFromOne(t: Tables, k: Key) {
    k.version >= 1 && forall v :: 1 <= v <= k.version ==> Key(k.context, v) in Joined(t)
  }

  /** The runtime holds exactly the processed keys, each context's versions from one on. */
  ghost predicate Holds(t: Tables, codec: Codec, runtime: Runtime, keys: seq<Key>)
    requires forall k :: k in keys ==> k in Joined(t)
  {
    && (forall k {:trigger k in keys} :: k in keys ==>
          && k in Joined(t) && Intact(t.snapshots[k], t.payloads[k], codec)
          && 1 <= k.version <= |HistoryOf(runtime, k.context)|
              && HistoryOf(runtime, k.context)[k.version - 1] == Restore(t, k, codec))
    && (forall c: ContextId, v: nat :: 1 <= v <= |HistoryOf(runtime, c)| ==> Key(c, v) in keys)
  }

  lemma HydrateRowHolds(t: Tables, keys: seq<Key>, k: Key, codec: Codec, runtime: Runtime)
    requires forall j :: j in keys ==> j in Joined(t)
    requires k in Joined(t) && Holds(t, codec, runtime, keys)
    ensures var r := HydrateRow(t, k, codec, runtime); r.Ok? ==> Holds(t, codec, r.value, keys + [k])
  {
    var r := HydrateRow(t, k, codec, runtime);
    if r.Ok? {
      assert k == Key(k.context, k.version);
      forall j {:trigger j in keys + [k]} | j in keys + [k]
        ensures && j in Joined(t) && Intact(t.snapshots[j], t.payloads[j], codec)
                && 1 <= j.version <= |HistoryOf(r.value, j.context)|
                    && HistoryOf(r.value, j.context)[j.version - 1] == Restore(t, j, codec)
      {
        assert j == k || j in keys;
      }
      forall c: ContextId, v: nat | 1 <= v <= |HistoryOf(r.value, c)| ensures Key(c, v) in keys + [k] {
        if c == k.context && v == k.version {
          assert Key(c, v) == k;
        } else {
          assert 1 <= v <= |HistoryOf(runtime, c)|;
        }
      }
    }
  }

  /** The next key in order continues its context exactly where the processed keys stopped. */
  lemma NextVersion(t: Tables, keys: seq<Key>, n: nat, codec: Codec, runtime: Runtime)
    requires Ascending(keys) && n < |keys|
    requires forall j :: j in keys <==> j in Joined(t)
    requires CountsFromOne(t, keys[n]) && Holds(t, codec, runtime, keys[..n])
    ensures |HistoryOf(runtime, keys[n].context)| == keys[n].version - 1
  {
    var k, held := keys[n], |HistoryOf(runtime, keys[n].context)|;
    assert k in Joined(t);
    forall v: nat {:trigger Key(k.context, v)} | 1 <= v <= held ensures v < k.version {
      assert Key(k.context, v) in keys[..n];
      var i :| 0 <= i < n && keys[i] == Key(k.context, v);
      assert Before(keys[i], k);
    }
    forall v: nat {:trigger Key(k.context, v)} | 1 <= v < k.version ensures v <= held {
      assert Key(k.context, v) in Joined(t);
      var i :| 0 <= i < |keys| && keys[i] == Key(k.context, v);
      assert i != n && (i > n ==> Before(k, keys[i]));
      assert Key(k.context, v) in keys[..n];
    }
    assert Key(k.context, held) == Key(k.context, held) && k.version >= 1;
    assert k.version > 1 ==> Key(k.context, k.version - 1).version <= held;
  }

  lemma RowsAppend(t: Tables, keys: seq<Key>, k: Key, codec: Codec)
    requires (forall j :: j in keys ==> j in Joined(t)) && k in Joined(t)
    ensures forall j :: j in keys + [k] ==> j in Joined(t)
    ensures HydrateRows(t, keys + [k], codec) ==
            var before := HydrateRows(t, keys, codec);
            if before.Err? then before else HydrateRow(t, k, codec, before.value)
  {
    assert (keys + [k])[..|keys|] == keys;
  }

  lemma RowAccepted(t: Tables, k: Key, codec: Codec, runtime: Runtime)
    requires Restorable(t, codec) && k in Joined(t) && |HistoryOf(runtime, k.context)| == k.version - 1
    ensures HydrateRow(t, k, codec, runtime).Ok?
  {}

  /** What hydration has done after some of the rows. */
  ghost predicate HydratedSofar(t: Tables, keys: seq<Key>, codec: Codec) {
    && (forall j :: j in keys ==> j in Joined(t))
    && var r := HydrateRows(t, keys, codec);
       && (Restorable(t, codec) ==> r.Ok?)
       && (r.Ok? ==> Holds(t, codec, r.value, keys))
  }

  lemma HydrateOneMore(t: Tables, keys: seq<Key>, k: Key, codec: Codec, more: seq<Key>)
    requires more == keys + [k]
    requires HydratedSofar(t, keys, codec) && k in Joined(t)
    requires var r := HydrateRows(t, keys, codec);
             Restorable(t, codec) ==> |HistoryOf(r.value, k.context)| == k.version - 1
    ensures HydratedSofar(t, more, codec)
  {
    RowsAppend(t, keys, k, codec);
    var before := HydrateRows(t, keys, codec);
    if before.Ok? {
      HydrateRowHolds(t, keys, k, codec, before.value);
      if Restorable(t, codec) {
        RowAccepted(t, k, codec, before.value);
      }
    }
  }

  lemma RestorableCounts(t: Tables, k: Key, codec: Codec)
    requires Restorable(t, codec) && k in Joined(t)
    ensures CountsFromOne(t, k)
  {}

  lemma {:induction false} HydratePrefix(t: Tables, keys: seq<Key>, n: nat, codec: Codec)
    requires Ascending(keys) && n <= |keys|
    requires forall j :: j in keys <==> j in Joined(t)
    ensures HydratedSofar(t, keys[..n], codec)
  {
    if n > 0 {
      var init, k := keys[..n - 1], keys[n - 1];
      assert keys[..n] == init + [k];
      HydratePrefix(t, keys, n - 1, codec);
      if Restorable(t, codec) {
        RestorableCounts(t, k, codec);
        NextVersion(t, keys, n - 1, codec, HydrateRows(t, init, codec).value);
      }
      HydrateOneMore(t, init, k, codec, keys[..n]);
    }
  }

  /**
   * Hydration succeeds exactly when every payload has its recorded digest and the versions of every context
   * count from one; it then rebuilds every context's snapshots in order, and nothing else.
   */
  lemma HydrateExact(t: Tables, codec: Codec)
    ensures var r := HydrateRows(t, Ordered(Joined(t)), codec);
            && (r.Ok? <==> Restorable(t, codec))
            && (r.Ok? ==> Holds(t, codec, r.value, Ordered(Joined(t))))
  {
    var keys := Ordered(Joined(t));
    OrderedLists(Joined(t));
    HydratePrefix(t, keys, |keys|, codec);
    assert keys[..|keys|] == keys;
    var r := HydrateRows(t, keys, codec);
    if r.Ok? {
      forall k {:trigger k in Joined(t)} | k in Joined(t)
        ensures Intact(t.snapshots[k], t.payloads[k], codec) && CountsFromOne(t, k)
      {
        assert k in keys;
        forall v | 1 <= v <= k.version ensures Key(k.context, v) in Joined(t) {
          assert 1 <= v <= |HistoryOf(r.value, k.context)|;
          assert Key(k.context, v) in keys;
        }
      }
    }
  }

  /** The first refusal is the outcome. */
  lemma {:induction false} ErrorStays(t: Tables, keys: seq<Key>, n: nat, codec: Codec)
    requires forall k :: k in keys ==> k in Joined(t)
    requires n <= |keys| && HydrateRows(t, keys[..n], codec).Err?
    ensures HydrateRows(t, keys, codec) == HydrateRows(t, keys[..n], codec)
    decreases |keys|
  {
    if n == |keys| {
      assert keys[..n] == keys;
    } else {
      assert keys[..|keys| - 1][..n] == keys[..n];
      ErrorStays(t, keys[..|keys| - 1], n, codec);
    }
  }

  /** What each refusal says of the row it names. */
  ghost predicate Refuses(t: Tables, codec: Codec, e: HydrationError) {
    && e.key in Joined(t)
    && var row, payload := t.snapshots[e.key], t.payloads[e.key];
       match e
       case CorruptMembership(_) => codec.sha(payload.membership) != row.membershipHash
       case CorruptScores(_) =>
         && codec.sha(payload.membership) == row.membershipHash
         && payload.scores.Some? && codec.sha(payload.scores.value) != row.scoreHash
       case NonContiguous(k) => Intact(row, payload, codec) && !CountsFromOne(t, k)
  }

  lemma NextRefused(t: Tables, keys: seq<Key>, n: nat, codec: Codec, runtime: Runtime)
    requires Ascending(keys) && n < |keys|
    requires forall j :: j in keys <==> j in Joined(t)
    requires Holds(t, codec, runtime, keys[..n])
    ensures var r := HydrateRow(t, keys[n], codec, runtime);
            r.Err? ==> r.error.key == keys[n] && Refuses(t, codec, r.error)
  {
    assert keys[n] in Joined(t);
    if CountsFromOne(t, keys[n]) {
      NextVersion(t, keys, n, codec, runtime);
    }
  }

  /** The refusal is right about its row, and every row before it in the order of the keys is without a flaw. */
  ghost predicate FirstFlaw(t: Tables, codec: Codec, e: HydrationError) {
    && Refuses(t, codec, e)
    && forall j {:trigger j in Joined(t)} ::
         && j in Joined(t)
         && (j.context < e.key.context || (j.context == e.key.context && j.version < e.key.version)) ==>
           Intact(t.snapshots[j], t.payloads[j], codec) && CountsFromOne(t, j)
  }

  lemma RefusedFirst(t: Tables, keys: seq<Key>, n: nat, codec: Codec, runtime: Runtime)
    requires Ascending(keys) && n < |keys|
    requires forall j :: j in keys <==> j in Joined(t)
    requires Holds(t, codec, runtime, keys[..n])
    ensures var r := HydrateRow(t, keys[n], codec, runtime); r.Err? ==> FirstFlaw(t, codec, r.error)
  {
    NextRefused(t, keys, n, codec, runtime);
    forall j {:trigger j in Joined(t)} | j in Joined(t) && Before(j, keys[n])
      ensures Intact(t.snapshots[j], t.payloads[j], codec) && CountsFromOne(t, j)
    {
      var i :| 0 <= i < |keys| && keys[i] == j;
      assert i < n && j in keys[..n];
      HeldCounts(t, codec, runtime, keys[..n], j);
    }
  }

  lemma RefusalAmong(t: Tables, keys: seq<Key>, codec: Codec, n: nat)
    requires Ascending(keys) && n < |keys|
    requires forall j :: j in keys <==> j in Joined(t)
    requires HydrateRows(t, keys[..n], codec).Ok? && HydrateRows(t, keys[..n + 1], codec).Err?
    ensures HydrateRows(t, keys[..n + 1], codec).Err? && FirstFlaw(t, codec, HydrateRows(t, keys[..n + 1], codec).error)
  {
    HydratePrefix(t, keys, n, codec);
    RefusedFirst(t, keys, n, codec, HydrateRows(t, keys[..n], codec).value);
    assert keys[..n + 1] == keys[..n] + [keys[n]];
    RowsAppend(t, keys[..n], keys[n], codec);
  }

  /** A refusal names the first row that has a flaw, and which flaw that is. */
  lemma HydrateRefusal(t: Tables, codec: Codec)
    ensures var r := HydrateRows(t, Ordered(Joined(t)), codec); r.Err? ==> FirstFlaw(t, codec, r.error)
  {
    OrderedLists(Joined(t));
    RefusalIn(t, Ordered(Joined(t)), codec);
  }

  lemma RefusalIn(t: Tables, keys: seq<Key>, codec: Codec)
    requires Ascending(keys) && forall j :: j in keys <==> j in Joined(t)
    ensures var r := HydrateRows(t, keys, codec); r.Err? ==> FirstFlaw(t, codec, r.error)
  {
    assert keys[..|keys|] == keys;
    if HydrateRows(t, keys, codec).Err? {
      var n := FirstRefused(t, keys, codec, |keys|);
      RefusalAmong(t, keys, codec, n);
      ErrorStays(t, keys, n + 1, codec);
    }
  }

  /** What hydration rebuilds, column by column: the rows that are not building and have a payload. */
  ghost predicate Rebuilt(t: Tables, codec: Codec, runtime: Runtime) {
    forall c: ContextId, v: nat ::
      && (1 <= v <= |HistoryOf(runtime, c)| <==>
            Key(c, v) in t.snapshots && Key(c, v) in t.payloads && t.snapshots[Key(c, v)].state != Building)
      && (1 <= v <= |HistoryOf(runtime, c)| ==>
            var restored, row, payload := HistoryOf(runtime, c)[v - 1], t.snapshots[Key(c, v)], t.payloads[Key(c, v)];
            && restored.membership == payload.membership && restored.scores == codec.decode(payload.scores)
            && restored.computedAt == row.computedAt && restored.dataAsOf == row.dataAsOf
            && restored.details == row.details)
  }

  lemma HydrateRebuilds(t: Tables, codec: Codec)
    ensures var r := HydrateRows(t, Ordered(Joined(t)), codec); r.Ok? ==> Rebuilt(t, codec, r.value)
  {
    HydrateExact(t, codec);
    var r := HydrateRows(t, Ordered(Joined(t)), codec);
    if r.Ok? {
      HoldsRebuilt(t, codec, r.value, Ordered(Joined(t)));
    }
  }

  lemma HoldsRebuilt(t: Tables, codec: Codec, runtime: Runtime, keys: seq<Key>)
    requires (forall k :: k in keys <==> k in Joined(t)) && Holds(t, codec, runtime, keys)
    ensures Rebuilt(t, codec, runtime)
  {
    forall c: ContextId, v: nat
      ensures 1 <= v <= |HistoryOf(runtime, c)| <==> Key(c, v) in Joined(t)
      ensures 1 <= v <= |HistoryOf(runtime, c)| && Key(c, v) in Joined(t) ==>
                HistoryOf(runtime, c)[v - 1] == Restore(t, Key(c, v), codec)
    {
      assert Key(c, v) in keys <==> Key(c, v) in Joined(t);
    }
  }

  lemma HeldCounts(t: Tables, codec: Codec, runtime: Runtime, keys: seq<Key>, j: Key)
    requires forall k :: k in keys ==> k in Joined(t)
    requires Holds(t, codec, runtime, keys) && j in keys
    ensures Intact(t.snapshots[j], t.payloads[j], codec) && CountsFromOne(t, j)
  {
    forall v | 1 <= v <= j.version ensures Key(j.context, v) in Joined(t) {
      assert 1 <= v <= |HistoryOf(runtime, j.context)|;
      assert Key(j.context, v) in keys;
    }
  }

  lemma {:induction false} FirstRefused(t: Tables, keys: seq<Key>, codec: Codec, n: nat) returns (first: nat)
    requires n <= |keys| && forall k :: k in keys ==> k in Joined(t)
    requires HydrateRows(t, keys[..n], codec).Err?
    ensures first < n && HydrateRows(t, keys[..first], codec).Ok? && HydrateRows(t, keys[..first + 1], codec).Err?
  {
    assert keys[..n][..n - 1] == keys[..n - 1];
    if HydrateRows(t, keys[..n - 1], codec).Ok? {
      first := n - 1;
    } else {
      first := FirstRefused(t, keys, codec, n - 1);
    }
  }

  // ---- Round trip ------------------------------------------------------------------------

  function PromoteAll(t: Tables, ps: seq<Promotion>, codec: Codec): Tables {
    if ps == [] then t else Promoted(PromoteAll(t, ps[..|ps| - 1], codec), ps[|ps| - 1], codec)
  }

  /** The promotions of one context, in order. */
  function Of(ps: seq<Promotion>, c: ContextId): seq<Promotion> {
    if ps == [] then []
    else
      var before := Of(ps[..|ps| - 1], c);
      if ps[|ps| - 1].entry.contextId == c then before + [ps[|ps| - 1]] else before
  }

  /** Each promotion is the next version of its context, counting from one. */
  predicate Contiguous(ps: seq<Promotion>) {
    ps == [] ||
    (Contiguous(ps[..|ps| - 1]) &&
     ps[|ps| - 1].snapshot.version == |Of(ps[..|ps| - 1], ps[|ps| - 1].entry.contextId)| + 1)
  }

  predicate RowShows(row: SnapshotRow, payload: Payload, p: Promotion, codec: Codec) {
    && row.state != Building
    && row.computedAt == p.snapshot.computedAt && row.dataAsOf == p.snapshot.dataAsOf
    && row.validFrom == p.snapshot.validFrom && row.definitionVersion == p.entry.version
    && row.details == p.snapshot.details
    && row.membershipHash == codec.sha(p.membership) && row.scoreHash == codec.sha(codec.encode(p.scores))
    && payload == Payload(p.membership, Some(codec.encode(p.scores)))
  }

  /** The tables hold exactly these promotions. */
  ghost predicate Stores(t: Tables, ps: seq<Promotion>, codec: Codec) {
    && (forall c: ContextId, v: nat {:trigger Key(c, v) in t.snapshots} ::
        Key(c, v) in t.snapshots <==> 1 <= v <= |Of(ps, c)|)
    && (forall c: ContextId, v: nat {:trigger Key(c, v) in t.payloads} ::
        Key(c, v) in t.payloads <==> 1 <= v <= |Of(ps, c)|)
    && (forall c: ContextId, v: nat {:trigger Key(c, v) in t.snapshots} :: 1 <= v <= |Of(ps, c)| ==>
          RowShows(t.snapshots[Key(c, v)], t.payloads[Key(c, v)], Of(ps, c)[v - 1], codec))
  }

  lemma {:induction false} PromoteAllStores(t: Tables, ps: seq<Promotion>, codec: Codec)
    requires t.snapshots == map[] && t.payloads == map[] && Contiguous(ps)
    ensures Stores(PromoteAll(t, ps, codec), ps, codec)
  {
    if ps != [] {
      var init, p := ps[..|ps| - 1], ps[|ps| - 1];
      var before := PromoteAll(t, init, codec);
      PromoteAllStores(t, init, codec);
      assert KeyOf(p) !in before.snapshots;
      PromotedRows(before, p, codec);
      PromotionStored(before, init, p, codec);
      assert ps == init + [p];
    }
  }

  lemma PromotionStored(t: Tables, ps: seq<Promotion>, p: Promotion, codec: Codec)
    requires Stores(t, ps, codec)
    requires p.snapshot.version == |Of(ps, p.entry.contextId)| + 1
    ensures Stores(Promoted(t, p, codec), ps + [p], codec)
  {
    assert (ps + [p])[..|ps|] == ps;
    var t', key := Promoted(t, p, codec), KeyOf(p);
    assert Key(key.context, key.version) !in t.snapshots;
    PromotedRows(t, p, codec);
    assert t'.payloads == t.payloads[key := Payload(p.membership, Some(codec.encode(p.scores)))];
    forall c: ContextId, v: nat
      ensures Key(c, v) in t'.snapshots <==> 1 <= v <= |Of(ps + [p], c)|
      ensures Key(c, v) in t'.payloads <==> 1 <= v <= |Of(ps + [p], c)|
      ensures 1 <= v <= |Of(ps + [p], c)| ==>
                RowShows(t'.snapshots[Key(c, v)], t'.payloads[Key(c, v)], Of(ps + [p], c)[v - 1], codec)
    {
      assert Key(c, v) in t.snapshots <==> 1 <= v <= |Of(ps, c)|;
      assert Key(c, v) in t.payloads <==> 1 <= v <= |Of(ps, c)|;
      if 1 <= v <= |Of(ps + [p], c)| {
        StoredAt(t, t', ps, p, codec, c, v);
      }
    }
  }

  lemma StoredAt(t: Tables, t': Tables, ps: seq<Promotion>, p: Promotion, codec: Codec, c: ContextId, v: nat)
    requires Stores(t, ps, codec) && (ps + [p])[..|ps|] == ps
    requires p.snapshot.version == |Of(ps, p.entry.contextId)| + 1
    requires t' == Promoted(t, p, codec) && 1 <= v <= |Of(ps + [p], c)|
    ensures Key(c, v) in t'.snapshots && Key(c, v) in t'.payloads
    ensures RowShows(t'.snapshots[Key(c, v)], t'.payloads[Key(c, v)], Of(ps + [p], c)[v - 1], codec)
  {
    var key := KeyOf(p);
    assert Key(key.context, key.version) !in t.snapshots;
    PromotedRows(t, p, codec);
    if Key(c, v) != key {
      assert 1 <= v <= |Of(ps, c)|;
      assert Key(c, v) in t.snapshots;
    }
  }

  lemma {:induction false} OfAmong(ps: seq<Promotion>, c: ContextId)
    ensures forall p :: p in Of(ps, c) ==> p in ps
  {
    if ps != [] {
      OfAmong(ps[..|ps| - 1], c);
      assert ps == ps[..|ps| - 1] + [ps[|ps| - 1]];
    }
  }

  /** The codec gives back the scores of this promotion. */
  predicate Decodes(codec: Codec, p: Promotion) {
    codec.decode(Some(codec.encode(p.scores))) == p.scores
  }

  function AsRestored(p: Promotion): Restored {
    Restored(p.membership, p.scores, p.snapshot.computedAt, p.snapshot.dataAsOf, p.snapshot.details)
  }

  /**
   * Round trip: after any interleaved run of promotions over many contexts, versions counting from one,
   * hydration succeeds and gives back every context's snapshots, in order, with their scores.
   */
  lemma PromoteHydrate(t: Tables, ps: seq<Promotion>, codec: Codec, c: ContextId)
    requires t.snapshots == map[] && t.payloads == map[] && Contiguous(ps)
    requires forall p :: p in ps ==> Decodes(codec, p)
    ensures var t' := PromoteAll(t, ps, codec);
            var r := HydrateRows(t', Ordered(Joined(t')), codec);
            && r.Ok?
            && |HistoryOf(r.value, c)| == |Of(ps, c)|
            && forall i :: 0 <= i < |Of(ps, c)| ==> HistoryOf(r.value, c)[i] == AsRestored(Of(ps, c)[i])
  {
    var t' := PromoteAll(t, ps, codec);
    PromoteAllStores(t, ps, codec);
    StoredRestorable(t', ps, codec);
    HydrateExact(t', codec);
    OrderedLists(Joined(t'));
    OfAmong(ps, c);
    HeldIsStored(t', ps, codec, HydrateRows(t', Ordered(Joined(t')), codec).value, Ordered(Joined(t')), c);
  }

  lemma StoredRestorable(t: Tables, ps: seq<Promotion>, codec: Codec)
    requires Stores(t, ps, codec)
    ensures Restorable(t, codec)
    ensures forall c: ContextId, v: nat {:trigger Key(c, v) in Joined(t)} ::
        Key(c, v) in Joined(t) <==> 1 <= v <= |Of(ps, c)|
  {
    forall c: ContextId, v: nat ensures Key(c, v) in Joined(t) <==> 1 <= v <= |Of(ps, c)| {
      assert Key(c, v) in t.snapshots <==> 1 <= v <= |Of(ps, c)|;
      assert Key(c, v) in t.payloads <==> 1 <= v <= |Of(ps, c)|;
    }
    forall k {:trigger k in Joined(t)} | k in Joined(t)
      ensures Intact(t.snapshots[k], t.payloads[k], codec) && CountsFromOne(t, k)
    {
      assert k == Key(k.context, k.version);
      assert Key(k.context, k.version) in t.snapshots;
    }
  }

  lemma HeldIsStored(t: Tables, ps: seq<Promotion>, codec: Codec, runtime: Runtime, keys: seq<Key>, c: ContextId)
    requires Stores(t, ps, codec) && forall p :: p in Of(ps, c) ==> Decodes(codec, p)
    requires forall k :: k in keys <==> k in Joined(t)
    requires Holds(t, codec, runtime, keys)
    ensures |HistoryOf(runtime, c)| == |Of(ps, c)|
    ensures forall i :: 0 <= i < |Of(ps, c)| ==> HistoryOf(runtime, c)[i] == AsRestored(Of(ps, c)[i])
  {
    StoredRestorable(t, ps, codec);
    var held, wanted := |HistoryOf(runtime, c)|, |Of(ps, c)|;
    assert held > 0 ==> Key(c, held) in keys && Key(c, held) in Joined(t);
    forall i | 0 <= i < wanted ensures i < held && HistoryOf(runtime, c)[i] == AsRestored(Of(ps, c)[i]) {
      var k := Key(c, i + 1);
      assert k in Joined(t);
      assert k in keys;
      assert Of(ps, c)[i] in Of(ps, c);
      assert Key(c, i + 1) in t.snapshots;
    }
    assert wanted > 0 ==> Key(c, wanted) in Joined(t) && Key(c, wanted) in keys;
  }

  // ---- History ---------------------------------------------------------------------------

  function RowsOf(p: Promotion): seq<HistoryRow> {
    seq(|p.events|, i requires 0 <= i < |p.events| =>
      HistoryRow(p.entry.contextId, EventKeyOf(p, p.events[i]), p.events[i]))
  }

  /** Every event of every promotion, in the order it was offered. */
  function Offered(ps: seq<Promotion>): seq<HistoryRow> {
    if ps == [] then [] else Offered(ps[..|ps| - 1]) + RowsOf(ps[|ps| - 1])
  }

  /** The first row of each event key. */
  function FirstOfEach(rows: seq<HistoryRow>): seq<HistoryRow> {
    if rows == [] then []
    else
      var before := FirstOfEach(rows[..|rows| - 1]);
      if Recorded(before, rows[|rows| - 1].key) then before else before + [rows[|rows| - 1]]
  }

  lemma {:induction false} InsertEventsFirst(rows: seq<HistoryRow>, p: Promotion, n: nat)
    requires n <= |p.events|
    ensures InsertEvents(FirstOfEach(rows), p, n) == FirstOfEach(rows + RowsOf(p)[..n])
  {
    if n == 0 {
      assert rows + RowsOf(p)[..0] == rows;
    } else {
      InsertEventsFirst(rows, p, n - 1);
      assert (rows + RowsOf(p)[..n])[..|rows| + n - 1] == rows + RowsOf(p)[..n - 1];
    }
  }

  /** The stored history is what was offered, in order, without repeated event keys. */
  lemma {:induction false} HistoryStored(t: Tables, ps: seq<Promotion>, codec: Codec)
    requires t.history == []
    ensures PromoteAll(t, ps, codec).history == FirstOfEach(Offered(ps))
  {
    if ps != [] {
      var init, p := ps[..|ps| - 1], ps[|ps| - 1];
      HistoryStored(t, init, codec);
      InsertEventsFirst(Offered(init), p, |p.events|);
      assert RowsOf(p)[..|p.events|] == RowsOf(p);
    }
  }

  lemma {:induction false} FirstOfEachDistinct(rows: seq<HistoryRow>)
    ensures forall i, j :: 0 <= i < j < |FirstOfEach(rows)| ==> FirstOfEach(rows)[i].key != FirstOfEach(rows)[j].key
    ensures forall i :: 0 <= i < |rows| ==> Recorded(FirstOfEach(rows), rows[i].key)
  {
    if rows != [] {
      var init := rows[..|rows| - 1];
      FirstOfEachDistinct(init);
      var before, kept, last := FirstOfEach(init), FirstOfEach(rows), rows[|rows| - 1];
      forall i | 0 <= i < |rows| ensures Recorded(kept, rows[i].key) {
        if i < |init| {
          assert Recorded(before, init[i].key);
          var j :| 0 <= j < |before| && before[j].key == rows[i].key;
          assert kept[j] == before[j];
        } else if !Recorded(before, last.key) {
          assert kept[|kept| - 1] == last;
        }
      }
    }
  }
}
