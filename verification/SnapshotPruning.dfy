/** Pruning to an anchor, the instants that the retained snapshots answer for, and runs of the tables. */
module SnapshotPruning {
  import opened Outcomes
  import SnapshotPaging
  import opened SnapshotTables

  // ---- Validity intervals ----------------------------------------------------------------

  predicate ValidAt(row: SnapshotRow, t: Instant) {
    row.validFrom <= t && (row.validTo.Some? ==> t < row.validTo.value)
  }

  /** Rows are valid from when they were computed, and later versions were computed later. */
  ghost predicate Timely(rows: map<Key, SnapshotRow>) {
    && (forall k :: k in rows ==> rows[k].validFrom == rows[k].computedAt)
    && (forall k, k' {:trigger k in rows, k' in rows} ::
        k in rows && k' in rows && k.context == k'.context && k.version < k'.version ==>
            rows[k].computedAt < rows[k'].computedAt)
  }

  lemma {:induction false} Greatest(s: set<nat>) returns (m: nat)
    requires s != {}
    ensures m in s && forall y :: y in s ==> y <= m
  {
    assert (forall y :: y !in s) ==> s == {};
    var x :| x in s;
    if s == {x} {
      m := x;
    } else {
      var y := Greatest(s - {x});
      m := if x <= y then y else x;
      assert forall z :: z in s ==> z == x || z in s - {x};
    }
  }

  lemma SuccessorExists(rows: map<Key, SnapshotRow>, k: Key, above: Key) returns (k': Key)
    requires k in rows && above in rows && above.context == k.context && k.version < above.version
    ensures Successor(rows, k, k') && k'.version <= above.version
  {
    var versions := set j | j in rows && j.context == k.context && k.version < j.version :: j.version;
    assert above.version in versions;
    var v := SnapshotPaging.LeastMember(versions);
    k' := Key(k.context, v);
    assert forall j {:trigger j in rows} :: j in rows && j.context == k.context && k.version < j.version ==>
        j.version in versions;
  }

  /** The last row to start by `t` is still valid then. */
  lemma LastStartedValid(rows: map<Key, SnapshotRow>, k: Key, t: Instant)
    requires CurrentIsLatest(rows) && Tiled(rows) && Timely(rows)
    requires k in rows && rows[k].validFrom <= t
    requires forall j {:trigger j in rows} :: j in rows && j.context == k.context && k.version < j.version ==>
        t < rows[j].validFrom
    ensures ValidAt(rows[k], t)
  {
    if !Latest(rows, k) {
      var above :| above in rows && above.context == k.context && k.version < above.version;
      var next := SuccessorExists(rows, k, above);
    }
  }

  lemma StartsBy(rows: map<Key, SnapshotRow>, j: Key, k: Key)
    requires Timely(rows) && j in rows && k in rows && j.context == k.context && j.version <= k.version
    ensures rows[j].computedAt <= rows[k].computedAt && rows[k].validFrom == rows[k].computedAt
  {}

  /** A row is over once a later one of its context has started. */
  lemma EarlierOver(rows: map<Key, SnapshotRow>, j: Key, k: Key, t: Instant)
    requires Tiled(rows) && Timely(rows)
    requires j in rows && k in rows && j.context == k.context && j.version < k.version && rows[k].validFrom <= t
    ensures !ValidAt(rows[j], t)
  {
    var next := SuccessorExists(rows, j, k);
    assert rows[j].validTo == Some(rows[next].computedAt);
    StartsBy(rows, next, k);
  }

  /**
   * The retained validity intervals tile: at every instant from the earliest one on, exactly one snapshot of
   * the context is valid, so the intervals are disjoint and leave no gap.
   */
  lemma ExactlyOneValid(rows: map<Key, SnapshotRow>, first: Key, t: Instant) returns (k: Key)
    requires CurrentIsLatest(rows) && Tiled(rows) && Timely(rows)
    requires first in rows && rows[first].validFrom <= t
    ensures k in rows && k.context == first.context && ValidAt(rows[k], t)
    ensures forall j {:trigger j in rows} :: j in rows && j.context == first.context && ValidAt(rows[j], t) ==> j == k
  {
    var started := set j | j in rows && j.context == first.context && rows[j].validFrom <= t :: j.version;
    assert first.version in started;
    var v := Greatest(started);
    k := Key(first.context, v);
    assert forall j {:trigger j in rows} ::
        j in rows && j.context == first.context && rows[j].validFrom <= t ==> j.version in started;
    LastStartedValid(rows, k, t);
    forall j | j in rows && j.context == first.context && ValidAt(rows[j], t) ensures j == k {
      assert j.version in started;
      if j.version < k.version {
        EarlierOver(rows, j, k, t);
      }
    }
  }

  // ---- As-of answers ---------------------------------------------------------------------

  /** The greatest (data_as_of, version) not after `t`. */
  predicate IsAsOf(rows: map<Key, SnapshotRow>, c: ContextId, t: Instant, v: nat) {
    && Key(c, v) in rows && rows[Key(c, v)].dataAsOf <= t
    && forall k {:trigger k in rows} :: k in rows && k.context == c && rows[k].dataAsOf <= t ==>
         rows[k].dataAsOf < rows[Key(c, v)].dataAsOf || (rows[k].dataAsOf == rows[Key(c, v)].dataAsOf && k.version <= v)
  }

  lemma AsOfUnique(rows: map<Key, SnapshotRow>, c: ContextId, t: Instant, v: nat, v': nat)
    requires IsAsOf(rows, c, t, v) && IsAsOf(rows, c, t, v')
    ensures v == v'
  {}

  lemma {:induction false} AsOfAmong(rows: map<Key, SnapshotRow>, c: ContextId, t: Instant, s: set<nat>)
    returns (v: nat)
    requires s != {}
    requires forall u :: u in s ==> Key(c, u) in rows && rows[Key(c, u)].dataAsOf <= t
    ensures v in s
    ensures forall u :: u in s ==> rows[Key(c, u)].dataAsOf < rows[Key(c, v)].dataAsOf
                                   || (rows[Key(c, u)].dataAsOf == rows[Key(c, v)].dataAsOf && u <= v)
  {
    assert (forall y :: y !in s) ==> s == {};
    var x :| x in s;
    if s == {x} {
      v := x;
    } else {
      var y := AsOfAmong(rows, c, t, s - {x});
      var dx, dy := rows[Key(c, x)].dataAsOf, rows[Key(c, y)].dataAsOf;
      v := if dx < dy || (dx == dy && x <= y) then y else x;
      assert forall z :: z in s ==> z == x || z in s - {x};
    }
  }

  function Eligible(rows: map<Key, SnapshotRow>, c: ContextId, t: Instant): set<nat> {
    set k | k in rows && k.context == c && rows[k].dataAsOf <= t :: k.version
  }

  /** Every snapshot of the context has newer data. */
  ghost predicate NoneBy(rows: map<Key, SnapshotRow>, c: ContextId, t: Instant) {
    forall k {:trigger k in rows} :: k in rows && k.context == c ==> t < rows[k].dataAsOf
  }

  lemma EligibleNone(rows: map<Key, SnapshotRow>, c: ContextId, t: Instant)
    ensures Eligible(rows, c, t) == {} <==> NoneBy(rows, c, t)
  {
    forall k | k in rows && k.context == c && rows[k].dataAsOf <= t ensures Eligible(rows, c, t) != {} {
      assert k.version in Eligible(rows, c, t);
    }
  }

  lemma AsOfExists(rows: map<Key, SnapshotRow>, c: ContextId, t: Instant) returns (v: nat)
    requires Eligible(rows, c, t) != {}
    ensures v in Eligible(rows, c, t) && IsAsOf(rows, c, t, v)
  {
    var s := Eligible(rows, c, t);
    v := AsOfAmong(rows, c, t, s);
    forall k | k in rows && k.context == c && rows[k].dataAsOf <= t
      ensures rows[k].dataAsOf < rows[Key(c, v)].dataAsOf
              || (rows[k].dataAsOf == rows[Key(c, v)].dataAsOf && k.version <= v)
    {
      assert k.version in s && k == Key(c, k.version);
    }
  }

  // ---- Pruning ---------------------------------------------------------------------------

  predicate Kept(k: Key, c: ContextId, anchor: nat) {
    k.context != c || k.version >= anchor
  }

  function KeptHistory(history: seq<HistoryRow>, c: ContextId, cutoff: Instant): seq<HistoryRow> {
    if history == [] then []
    else
      var row := history[|history| - 1];
      var before := KeptHistory(history[..|history| - 1], c, cutoff);
      if row.contextId == c && row.change.effectiveAt < cutoff then before else before + [row]
  }

  /** Which rows are of another context, or took effect at the cutoff or later. */
  function Lasting(history: seq<HistoryRow>, c: ContextId, cutoff: Instant): seq<bool> {
    seq(|history|, i requires 0 <= i < |history| =>
      history[i].contextId != c || cutoff <= history[i].change.effectiveAt)
  }

  /** What is kept is the history in order, less the rows of this context that took effect before the cutoff. */
  lemma {:induction false} HistoryKept(history: seq<HistoryRow>, c: ContextId, cutoff: Instant)
    ensures KeptHistory(history, c, cutoff) == Marked(history, Lasting(history, c, cutoff))
  {
    if history != [] {
      var init, row := history[..|history| - 1], history[|history| - 1];
      HistoryKept(init, c, cutoff);
      MarkedNext(init, Lasting(init, c, cutoff), row, row.contextId != c || cutoff <= row.change.effectiveAt,
                 history, Lasting(history, c, cutoff));
    }
  }

  function Pruned(t: Tables, c: ContextId, cutoff: Instant, anchor: nat): Tables {
    t.(payloads := map k | k in t.payloads && Kept(k, c, anchor) :: t.payloads[k],
       snapshots := map k | k in t.snapshots && Kept(k, c, anchor) :: t.snapshots[k],
       history := KeptHistory(t.history, c, cutoff))
  }

  lemma {:induction false} KeptHistoryAgain(history: seq<HistoryRow>, c: ContextId, cutoff: Instant)
    ensures KeptHistory(KeptHistory(history, c, cutoff), c, cutoff) == KeptHistory(history, c, cutoff)
  {
    if history != [] {
      var init := history[..|history| - 1];
      KeptHistoryAgain(init, c, cutoff);
      var kept := KeptHistory(history, c, cutoff);
      if kept != KeptHistory(init, c, cutoff) {
        assert kept[..|kept| - 1] == KeptHistory(init, c, cutoff);
      }
    }
  }

  /** The anchor is still the anchor after pruning, and pruning again changes nothing. */
  lemma PruneTwice(t: Tables, c: ContextId, cutoff: Instant, anchor: nat, again: nat)
    requires IsAsOf(t.snapshots, c, cutoff, anchor)
    requires IsAsOf(Pruned(t, c, cutoff, anchor).snapshots, c, cutoff, again)
    ensures again == anchor
    ensures Pruned(Pruned(t, c, cutoff, anchor), c, cutoff, again) == Pruned(t, c, cutoff, anchor)
  {
    var rows' := Pruned(t, c, cutoff, anchor).snapshots;
    assert Key(c, anchor) in rows';
    assert IsAsOf(rows', c, cutoff, anchor);
    AsOfUnique(rows', c, cutoff, anchor, again);
    KeptHistoryAgain(t.history, c, cutoff);
  }

  ghost predicate SameAnswers(rows: map<Key, SnapshotRow>, rows': map<Key, SnapshotRow>,
                              c: ContextId, cutoff: Instant)
  {
    forall t: Instant, v: nat :: cutoff <= t ==> (IsAsOf(rows, c, t, v) <==> IsAsOf(rows', c, t, v))
  }

  /** Every row older than the anchor with data after the cutoff has a kept row with data of the same instant. */
  predicate LateRowsReplaced(rows: map<Key, SnapshotRow>, c: ContextId, cutoff: Instant, anchor: nat) {
    forall k {:trigger k in rows} :: k in rows && k.context == c && k.version < anchor && cutoff < rows[k].dataAsOf ==>
      exists k' {:trigger k' in rows} ::
          k' in rows && k'.context == c && anchor <= k'.version && rows[k'].dataAsOf == rows[k].dataAsOf
  }

  lemma AnswerKept(t: Tables, c: ContextId, cutoff: Instant, anchor: nat, at: Instant, v: nat)
    requires IsAsOf(t.snapshots, c, cutoff, anchor) && cutoff <= at
    requires LateRowsReplaced(t.snapshots, c, cutoff, anchor)
    requires IsAsOf(t.snapshots, c, at, v)
    ensures IsAsOf(Pruned(t, c, cutoff, anchor).snapshots, c, at, v)
  {}

  /**
   * Pruning keeps the as-of answers for every instant from the cutoff on, if and only if the late rows among
   * the deleted ones are replaced.
   */
  lemma PruneKeepsAnswersExact(t: Tables, c: ContextId, cutoff: Instant, anchor: nat)
    requires IsAsOf(t.snapshots, c, cutoff, anchor)
    ensures SameAnswers(t.snapshots, Pruned(t, c, cutoff, anchor).snapshots, c, cutoff)
            <==> LateRowsReplaced(t.snapshots, c, cutoff, anchor)
  {
    var rows, rows' := t.snapshots, Pruned(t, c, cutoff, anchor).snapshots;
    if LateRowsReplaced(rows, c, cutoff, anchor) {
      forall at: Instant, v: nat | cutoff <= at ensures IsAsOf(rows, c, at, v) <==> IsAsOf(rows', c, at, v) {
        assert anchor in Eligible(rows, c, at) by { assert Key(c, anchor) in rows; }
        var u := AsOfExists(rows, c, at);
        AnswerKept(t, c, cutoff, anchor, at, u);
        if IsAsOf(rows', c, at, v) { AsOfUnique(rows', c, at, u, v); }
        if IsAsOf(rows, c, at, v) { AsOfUnique(rows, c, at, u, v); }
      }
    }
    if SameAnswers(rows, rows', c, cutoff) {
      forall k | k in rows && k.context == c && k.version < anchor && cutoff < rows[k].dataAsOf
        ensures exists k' {:trigger k' in rows} ::
            k' in rows && k'.context == c && anchor <= k'.version && rows[k'].dataAsOf == rows[k].dataAsOf
      {
        var at := rows[k].dataAsOf;
        assert k.version in Eligible(rows, c, at);
        var v := AsOfExists(rows, c, at);
        assert IsAsOf(rows', c, at, v);
        assert Key(c, v) in rows';
      }
    }
  }

  /** Data instants never decrease with the version. */
  ghost predicate MonotoneData(rows: map<Key, SnapshotRow>) {
    forall k, k' {:trigger k in rows, k' in rows} ::
      k in rows && k' in rows && k.context == k'.context && k.version <= k'.version ==>
        rows[k].dataAsOf <= rows[k'].dataAsOf
  }

  /** Data instants that never decrease with the version leave no late row behind. */
  lemma MonotoneReplaces(rows: map<Key, SnapshotRow>, c: ContextId, cutoff: Instant, anchor: nat)
    requires IsAsOf(rows, c, cutoff, anchor)
    requires MonotoneData(rows)
    ensures LateRowsReplaced(rows, c, cutoff, anchor)
  {}

  /** Pruning keeps the invariants, and the current snapshot survives it. */
  lemma PruneKeeps(t: Tables, codec: Codec, c: ContextId, cutoff: Instant, anchor: nat)
    requires Sound(t, codec) && IsAsOf(t.snapshots, c, cutoff, anchor)
    ensures Sound(Pruned(t, c, cutoff, anchor), codec)
    ensures forall k :: k in t.snapshots && t.snapshots[k].state == Current ==>
              k in Pruned(t, c, cutoff, anchor).snapshots
  {
    var rows, t' := t.snapshots, Pruned(t, c, cutoff, anchor);
    var rows' := t'.snapshots;
    assert Key(c, anchor) in rows;
    forall k | k in rows' ensures Latest(rows', k) <==> Latest(rows, k) {
      PruneLatest(rows, rows', c, anchor, k);
    }
    forall k, k' | Successor(rows', k, k') ensures rows'[k].validTo == Some(rows'[k'].computedAt) {
      assert Successor(rows, k, k') by {
        assert forall j {:trigger j in rows} ::
            j in rows && j.context == k.context && k.version < j.version ==> j in rows';
      }
    }
    assert Matched(t', codec) by {
      assert t'.snapshots.Keys == t'.payloads.Keys;
      forall k | k in t'.snapshots ensures Intact(t'.snapshots[k], t'.payloads[k], codec) {
        assert Intact(t.snapshots[k], t.payloads[k], codec);
      }
    }
  }

  lemma PruneLatest(rows: map<Key, SnapshotRow>, rows': map<Key, SnapshotRow>, c: ContextId, anchor: nat, k: Key)
    requires Key(c, anchor) in rows
    requires rows' == map j | j in rows && Kept(j, c, anchor) :: rows[j]
    requires k in rows'
    ensures Latest(rows', k) <==> Latest(rows, k)
  {
    if Latest(rows', k) {
      forall j | j in rows && j.context == k.context ensures j.version <= k.version {
        if j in rows' {
          assert j.version <= k.version;
        }
      }
    }
  }

  // ---- Whole runs ------------------------------------------------------------------------

  /** A failed or rolled-back operation changes nothing. */
  ghost predicate TableStep(t: Tables, t': Tables, codec: Codec) {
    || t' == t
    || (exists p :: NewVersion(t.snapshots, KeyOf(p)) && t' == Promoted(t, p, codec))
    || (exists c, cutoff, anchor :: IsAsOf(t.snapshots, c, cutoff, anchor) && t' == Pruned(t, c, cutoff, anchor))
  }

  ghost predicate TableRun(run: seq<Tables>, codec: Codec) {
    && run != [] && run[0].snapshots == map[] && run[0].payloads == map[]
    && forall i :: 0 <= i < |run| - 1 ==> TableStep(run[i], run[i + 1], codec)
  }

  /**
   * Promotion safety over all runs: after any mix of version-increasing promotions, failures and prunes over
   * any number of contexts, every context has exactly one current row and it is its greatest version, no
   * building row is visible, the intervals tile, and snapshots and payloads match.
   */
  lemma {:induction false} RunSound(run: seq<Tables>, codec: Codec, i: nat)
    requires TableRun(run, codec) && i < |run|
    ensures Sound(run[i], codec)
    decreases i
  {
    if i > 0 {
      RunSound(run, codec, i - 1);
      var t, t' := run[i - 1], run[i];
      assert TableStep(t, t', codec);
      if p :| NewVersion(t.snapshots, KeyOf(p)) && t' == Promoted(t, p, codec) {
        PromotionKeeps(t, p, codec);
      } else if c, cutoff, anchor :| IsAsOf(t.snapshots, c, cutoff, anchor) && t' == Pruned(t, c, cutoff, anchor) {
        PruneKeeps(t, codec, c, cutoff, anchor);
      }
    }
  }

  lemma LatestExists(rows: map<Key, SnapshotRow>, k: Key) returns (latest: Key)
    requires k in rows
    ensures latest in rows && latest.context == k.context && Latest(rows, latest)
  {
    var versions := set j | j in rows && j.context == k.context :: j.version;
    assert k.version in versions;
    var v := Greatest(versions);
    latest := Key(k.context, v);
    assert forall j {:trigger j in rows} :: j in rows && j.context == k.context ==> j.version in versions;
  }

  lemma LatestUnique(rows: map<Key, SnapshotRow>, j: Key, k: Key)
    requires j in rows && k in rows && j.context == k.context && Latest(rows, j) && Latest(rows, k)
    ensures j == k
  {}

  /** Exactly one current row a context, the greatest version: a corollary readers can use directly. */
  lemma CurrentUnique(rows: map<Key, SnapshotRow>, k: Key) returns (current: Key)
    requires CurrentIsLatest(rows) && k in rows
    ensures current in rows && current.context == k.context && rows[current].state == Current && Latest(rows, current)
    ensures forall j {:trigger j in rows} ::
        j in rows && j.context == k.context && rows[j].state == Current ==> j == current
  {
    current := LatestExists(rows, k);
    forall j {:trigger j in rows} | j in rows && j.context == k.context && rows[j].state == Current
      ensures j == current
    {
      LatestUnique(rows, j, current);
    }
  }
}
