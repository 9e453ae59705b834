/** From the delivered events to the ordered batch: deduplicate, check the boundary, sort. */
module Delivery {
  import opened ChangeLog
  import opened Paging
  import opened ChangeFeed

  datatype Filtered = Filtered(applicable: seq<Event>, duplicates: nat, outOfOrder: nat)

  function Ids(es: seq<Event>): set<nat> {
    set e | e in es :: e.id
  }

  function Filter(events: seq<Event>, seen: set<nat>, boundary: nat): Filtered {
    if events == [] then Filtered([], 0, 0)
    else
      var f := Filter(events[..|events| - 1], seen, boundary);
      var e := events[|events| - 1];
      if e.id in seen || e.id in Ids(f.applicable) then f.(duplicates := f.duplicates + 1)
      else if e.watermark <= boundary then f.(outOfOrder := f.outOfOrder + 1)
      else f.(applicable := f.applicable + [e])
  }

  /** The filter loop of the synchronizer, with its set of ids met in this batch. */
  method FilterEvents(events: seq<Event>, seen: set<nat>, boundary: nat) returns (f: Filtered)
    ensures f == Filter(events, seen, boundary)
  {
    var applicable: seq<Event> := [];
    var batchEventIds: set<nat> := {};
    var duplicates, outOfOrder := 0, 0;
    for i := 0 to |events|
      invariant Filtered(applicable, duplicates, outOfOrder) == Filter(events[..i], seen, boundary)
      invariant batchEventIds == Ids(applicable)
    {
      var event := events[i];
      assert events[..i + 1][..i] == events[..i];
      if event.id in seen || event.id in batchEventIds {
        duplicates := duplicates + 1;
      } else if event.watermark <= boundary {
        outOfOrder := outOfOrder + 1;
      } else {
        batchEventIds := batchEventIds + {event.id};
        applicable := applicable + [event];
      }
    }
    assert events[..|events|] == events;
    f := Filtered(applicable, duplicates, outOfOrder);
  }

  ghost predicate DistinctIds(es: seq<Event>) {
    forall i, j :: 0 <= i < j < |es| ==> es[i].id != es[j].id
  }

  /** Every delivered event is applied, a duplicate, or out of order, and no id is applied twice. */
  lemma {:induction false} FilterAccounts(events: seq<Event>, seen: set<nat>, boundary: nat)
    ensures var f := Filter(events, seen, boundary);
            && |events| == |f.applicable| + f.duplicates + f.outOfOrder
            && DistinctIds(f.applicable)
            && (forall e :: e in f.applicable ==> e in events && e.id !in seen && boundary < e.watermark)
            && (forall e :: e in events && e.id !in seen && boundary < e.watermark ==> e.id in Ids(f.applicable))
  {
    if events != [] {
      FilterAccounts(events[..|events| - 1], seen, boundary);
    }
  }

  // ---- The counts, position by position ---------------------------------------------------

  /** The id is not among those seen before, and the watermark is past the boundary. */
  predicate NewAt(events: seq<Event>, seen: set<nat>, boundary: nat, i: nat)
    requires i < |events|
  {
    events[i].id !in seen && boundary < events[i].watermark
  }

  /** An event with the same id was taken at an earlier position. */
  predicate TakenBefore(events: seq<Event>, seen: set<nat>, boundary: nat, i: nat)
    requires i < |events|
  {
    exists j :: 0 <= j < i && events[j].id == events[i].id && NewAt(events, seen, boundary, j)
  }

  /** Positions whose id was seen before this batch, or taken at an earlier position of it. */
  function Repeats(events: seq<Event>, seen: set<nat>, boundary: nat): set<nat> {
    set i | 0 <= i < |events| && (events[i].id in seen || TakenBefore(events, seen, boundary, i))
  }

  /** The other positions whose watermark is at or before the boundary. */
  function Late(events: seq<Event>, seen: set<nat>, boundary: nat): set<nat> {
    set i | 0 <= i < |events| && events[i].id !in seen && !TakenBefore(events, seen, boundary, i)
            && events[i].watermark <= boundary
  }

  lemma {:induction false} FilterTakes(events: seq<Event>, seen: set<nat>, boundary: nat)
    ensures forall id :: id in Ids(Filter(events, seen, boundary).applicable) <==>
              exists j :: 0 <= j < |events| && events[j].id == id && NewAt(events, seen, boundary, j)
  {
    if events != [] {
      var init, e := events[..|events| - 1], events[|events| - 1];
      var before, after := Filter(init, seen, boundary), Filter(events, seen, boundary);
      FilterTakes(init, seen, boundary);
      assert forall j :: 0 <= j < |init| ==> init[j] == events[j];
      assert forall j :: 0 <= j < |init| ==> (NewAt(init, seen, boundary, j) <==> NewAt(events, seen, boundary, j));
      forall id ensures id in Ids(after.applicable) <==>
                          exists j :: 0 <= j < |events| && events[j].id == id && NewAt(events, seen, boundary, j)
      {
        assert id in Ids(after.applicable) <==>
               id in Ids(before.applicable) || (id == e.id && NewAt(events, seen, boundary, |init|));
      }
    }
  }

  lemma PositionsGrow(events: seq<Event>, seen: set<nat>, boundary: nat)
    requires events != []
    ensures var init, last := events[..|events| - 1], |events| - 1;
            && Repeats(events, seen, boundary) == Repeats(init, seen, boundary) +
               (if events[last].id in seen || TakenBefore(events, seen, boundary, last) then {last} else {})
            && Late(events, seen, boundary) == Late(init, seen, boundary) +
               (if events[last].id !in seen && !TakenBefore(events, seen, boundary, last)
                   && events[last].watermark <= boundary then {last} else {})
  {
    var init := events[..|events| - 1];
    assert forall i :: 0 <= i < |init| ==> init[i] == events[i];
    forall i: nat | i < |init|
      ensures TakenBefore(init, seen, boundary, i) <==> TakenBefore(events, seen, boundary, i)
    {
      assert forall j :: 0 <= j < i ==> (NewAt(init, seen, boundary, j) <==> NewAt(events, seen, boundary, j));
    }
  }

  /**
   * What the two counts count. A duplicate is a delivery whose id was seen before or taken earlier in the batch; an
   * out-of-order rejection is one of the others, at or before the boundary.
   */
  lemma {:induction false} FilterCounts(events: seq<Event>, seen: set<nat>, boundary: nat)
    ensures Filter(events, seen, boundary).duplicates == |Repeats(events, seen, boundary)|
    ensures Filter(events, seen, boundary).outOfOrder == |Late(events, seen, boundary)|
  {
    if events != [] {
      var init, last := events[..|events| - 1], |events| - 1;
      FilterCounts(init, seen, boundary);
      FilterTakes(init, seen, boundary);
      PositionsGrow(events, seen, boundary);
      assert forall j :: 0 <= j < |init| ==> init[j] == events[j];
      assert events[last].id in Ids(Filter(init, seen, boundary).applicable) <==>
             TakenBefore(events, seen, boundary, last) by {
        assert forall j :: 0 <= j < |init| ==> (NewAt(init, seen, boundary, j) <==> NewAt(events, seen, boundary, j));
      }
    }
  }

  /** Once every id up to the boundary was seen, nothing is out of order: whatever is not applied is a duplicate. */
  lemma SteadyCounts(log: seq<Event>, events: seq<Event>, seen: set<nat>, boundary: nat)
    requires Numbered(log) && (forall e :: e in events ==> e in log)
    requires forall id :: 0 < id <= boundary ==> id in seen
    ensures var f := Filter(events, seen, boundary);
            f.outOfOrder == 0 && f.duplicates == |events| - |f.applicable|
  {
    FilterCounts(events, seen, boundary);
    FilterAccounts(events, seen, boundary);
    forall i: nat | i < |events| ensures i !in Late(events, seen, boundary) {
      assert events[i] in log;
    }
    assert Late(events, seen, boundary) == {};
  }

  /** Right after a bootstrap, with nothing seen, every redelivered old event is out of order and none a duplicate. */
  lemma BootstrapCounts(log: seq<Event>, events: seq<Event>, boundary: nat)
    requires Numbered(log) && (forall e :: e in events ==> e in log)
    ensures Late(events, {}, boundary) == set i | 0 <= i < |events| && events[i].watermark <= boundary
    ensures forall i :: i in Repeats(events, {}, boundary) ==> boundary < events[i].watermark
  {
    forall i: nat, j: nat | j < i < |events| && events[j].id == events[i].id
      ensures events[j].watermark == events[i].watermark
    {
      assert events[i] in log && events[j] in log;
      SameIdSameEvent(log, events[i], events[j]);
    }
  }

  // ---- Sorting ---------------------------------------------------------------------------

  /** Insert behind everything that is not greater: sorting this way keeps equal keys in order. */
  function Insert(e: Event, sorted: seq<Event>): seq<Event> {
    if sorted == [] || sorted[|sorted| - 1].watermark <= e.watermark then sorted + [e]
    else Insert(e, sorted[..|sorted| - 1]) + [sorted[|sorted| - 1]]
  }

  /** The stable sort by watermark. */
  function SortByWatermark(es: seq<Event>): seq<Event> {
    if es == [] then [] else Insert(es[|es| - 1], SortByWatermark(es[..|es| - 1]))
  }

  ghost predicate Ascending(es: seq<Event>) {
    forall i, j :: 0 <= i < j < |es| ==> es[i].watermark <= es[j].watermark
  }

  ghost predicate Increasing(es: seq<Event>) {
    forall i, j :: 0 <= i < j < |es| ==> es[i].watermark < es[j].watermark
  }

  lemma {:induction false} InsertPermutes(e: Event, sorted: seq<Event>)
    ensures multiset(Insert(e, sorted)) == multiset(sorted) + multiset{e}
  {
    if !(sorted == [] || sorted[|sorted| - 1].watermark <= e.watermark) {
      var init, last := sorted[..|sorted| - 1], sorted[|sorted| - 1];
      assert sorted == init + [last];
      InsertPermutes(e, init);
    }
  }

  lemma {:induction false} InsertSorts(e: Event, sorted: seq<Event>)
    requires Ascending(sorted)
    ensures Ascending(Insert(e, sorted))
  {
    if !(sorted == [] || sorted[|sorted| - 1].watermark <= e.watermark) {
      var init, last := sorted[..|sorted| - 1], sorted[|sorted| - 1];
      InsertSorts(e, init);
      InsertPermutes(e, init);
      var r := Insert(e, init);
      forall i | 0 <= i < |r| ensures r[i].watermark <= last.watermark {
        assert r[i] in multiset(r);
        assert r[i] == e || r[i] in init;
      }
    }
  }

  lemma {:induction false} SortSorts(es: seq<Event>)
    ensures Ascending(SortByWatermark(es))
    ensures multiset(SortByWatermark(es)) == multiset(es)
  {
    if es != [] {
      SortSorts(es[..|es| - 1]);
      InsertSorts(es[|es| - 1], SortByWatermark(es[..|es| - 1]));
      InsertPermutes(es[|es| - 1], SortByWatermark(es[..|es| - 1]));
      assert es == es[..|es| - 1] + [es[|es| - 1]];
    }
  }

  /** Two increasing lists with the same events are the same list. */
  lemma {:induction false} IncreasingUnique(a: seq<Event>, b: seq<Event>)
    requires Increasing(a) && Increasing(b)
    requires forall e :: e in a <==> e in b
    ensures a == b
  {
    assert a != [] ==> a[0] in b;
    assert b != [] ==> b[0] in a;
    if a != [] && b != [] {
      var x, y := a[|a| - 1], b[|b| - 1];
      assert x in b && y in a;
      assert x == y;
      var a', b' := a[..|a| - 1], b[..|b| - 1];
      assert forall e :: e in a <==> e in a' || e == x;
      assert forall e :: e in b <==> e in b' || e == x;
      assert x !in a' && x !in b';
      IncreasingUnique(a', b');
    }
  }

  /** The events of a numbered log are increasing, and the id tells the event. */
  lemma SliceIncreasing(log: seq<Event>, w: nat, m: nat)
    requires Numbered(log) && w <= m <= |log|
    ensures Increasing(log[w..m])
    ensures forall e: Event :: e in log[w..m] <==> e in log[..m] && w < e.watermark
  {}

  lemma SameIdSameEvent(log: seq<Event>, a: Event, b: Event)
    requires Numbered(log) && a in log && b in log && a.id == b.id
    ensures a == b
  {}

  /**
   * Delivery independence. Whatever the delivery, if the events above the boundary are those of the log
   * prefix `m`, the filtered and sorted batch is exactly the log between the boundary and `m`.
   */
  lemma OrderedBatch(log: seq<Event>, got: seq<Event>, seen: set<nat>, w: nat, m: nat)
    requires Numbered(log) && w <= m <= |log|
    requires forall e :: e in got ==> e in log
    requires forall e: Event :: w < e.watermark ==> (e in got <==> e in log[..m])
    requires forall id :: id in seen ==> id <= w
    ensures SortByWatermark(Filter(got, seen, w).applicable) == log[w..m]
  {
    var applied := Filter(got, seen, w).applicable;
    FilterAccounts(got, seen, w);
    SortSorts(applied);
    var sorted := SortByWatermark(applied);
    SliceIncreasing(log, w, m);
    forall e ensures e in applied <==> e in log[w..m] {
      if e in log[w..m] {
        assert e in got;
        assert e.id !in seen;
        var e' :| e' in applied && e'.id == e.id;
        SameIdSameEvent(log, e, e');
      }
    }
    assert forall e :: e in sorted <==> e in multiset(sorted);
    assert forall e :: e in applied <==> e in multiset(applied);
    SortedDistinct(log, applied, sorted);
    IncreasingUnique(sorted, log[w..m]);
  }

  /**
   * With the log fixed during the fetch, every combination of doubled, reversed and redelivered feed and every
   * page size gives one and the same batch: the log above the boundary.
   */
  lemma DeliveryIndependent(h: History<seq<Event>>, seen: set<nat>, w: nat, o: FeedOptions)
    requires FullyServed(h, w, o)
    requires Numbered(h.at) && First(h) == h.at && w <= |h.at|
    requires forall id :: id in seen ==> id <= w
    ensures SortByWatermark(Filter(Collected(h, w, o), seen, w).applicable) == h.at[w..]
  {
    var m := NoGap(h, w, o);
    OrderedBatch(h.at, Collected(h, w, o), seen, w, m);
    assert h.at[w..m] == h.at[w..];
  }

  /** All copies of the events up to the boundary are late, if the feed redelivers them. */
  lemma LatePositions(log: seq<Event>, w: nat, o: FeedOptions)
    requires Numbered(log) && w <= |log|
    ensures |Late(Pending(log, w, o), {}, w)| == if o.redeliver then Copied(w, o) else 0
  {
    var pending := Pending(log, w, o);
    assert forall e :: e in pending ==> e in log by {
      forall i: nat | i < |pending| ensures pending[i] in log {
        PendingAt(log, w, o, if o.redeliver then 0 else w, i, if o.duplicate then i / 2 else i);
      }
    }
    BootstrapCounts(log, pending, w);
    var from := if o.redeliver && o.outOfOrder then Copied(|log| - w, o) else 0;
    var count := if o.redeliver then Copied(w, o) else 0;
    forall i: nat | i < |pending| ensures i in Late(pending, {}, w) <==> from <= i < from + count {
      LatePosition(log, w, o, i);
    }
    PendingAt(log, w, o, if o.redeliver then 0 else w, 0, 0);
    IntervalSize(Late(pending, {}, w), from, count);
  }

  lemma LatePosition(log: seq<Event>, w: nat, o: FeedOptions, i: nat)
    requires Numbered(log) && w <= |log| && i < |Pending(log, w, o)|
    ensures Pending(log, w, o)[i].watermark <= w <==>
            o.redeliver && if o.outOfOrder then Copied(|log| - w, o) <= i else i < Copied(w, o)
  {
    PendingAt(log, w, o, if o.redeliver then 0 else w, i, if o.duplicate then i / 2 else i);
  }

  lemma {:induction false} IntervalSize(s: set<nat>, from: nat, count: nat)
    requires forall i :: i in s <==> from <= i < from + count
    ensures |s| == count
  {
    if count > 0 {
      IntervalSize(s - {from + count - 1}, from, count - 1);
    }
  }

  /**
   * The counts when nothing is appended during a fetch from a log of `total` events. If every id up to the boundary
   * was seen, nothing is out of order and every delivery but the first of a new event is a duplicate. If nothing was
   * seen, as after a bootstrap, every copy of a redelivered old event is out of order.
   */
  ghost predicate QuietlyCounted(duplicates: nat, outOfOrder: nat, seen: set<nat>, w: nat, total: nat, o: FeedOptions)
    requires w <= total
  {
    && ((forall id :: id in seen <==> 0 < id <= w) ==>
          outOfOrder == 0 && duplicates == Copied(if o.redeliver then total else total - w, o) - (total - w))
    && (seen == {} ==>
          outOfOrder == (if o.redeliver then Copied(w, o) else 0) &&
          duplicates == Copied(total - w, o) - (total - w))
  }

  /** The feed of a quiet source is counted so, and collected whole. */
  lemma QuietCounts(h: History<seq<Event>>, seen: set<nat>, w: nat, o: FeedOptions)
    requires FullyServed(h, w, o)
    requires Numbered(h.at) && First(h) == h.at && w <= |h.at|
    ensures var f := Filter(Collected(h, w, o), seen, w);
            QuietlyCounted(f.duplicates, f.outOfOrder, seen, w, |h.at|, o)
    ensures Collected(h, w, o) == Pending(h.at, w, o)
  {
    var got := Collected(h, w, o);
    var m := NoGap(h, w, o);
    QuietFeed(h, w, o);
    assert got == Pending(h.at, w, o);
    if forall id :: id in seen ==> id <= w {
      AppliedCount(h, seen, w, o);
      PendingCounts(h.at, seen, w, o, Filter(got, seen, w));
    }
  }

  lemma PendingCounts(log: seq<Event>, seen: set<nat>, w: nat, o: FeedOptions, f: Filtered)
    requires Numbered(log) && w <= |log| && f == Filter(Pending(log, w, o), seen, w)
    requires (forall e :: e in Pending(log, w, o) ==> e in log) && |f.applicable| == |log| - w
    ensures QuietlyCounted(f.duplicates, f.outOfOrder, seen, w, |log|, o)
  {
    var got := Pending(log, w, o);
    FilterAccounts(got, seen, w);
    PendingSize(log, w, o);
    if seen == {} {
      FilterCounts(got, seen, w);
      LatePositions(log, w, o);
    }
    if forall id :: id in seen <==> 0 < id <= w {
      SteadyCounts(log, got, seen, w);
    }
  }

  lemma PendingSize(log: seq<Event>, w: nat, o: FeedOptions)
    requires Numbered(log) && w <= |log|
    ensures |Pending(log, w, o)| == Copied(if o.redeliver then |log| else |log| - w, o)
  {
    PendingAt(log, w, o, if o.redeliver then 0 else w, 0, 0);
  }

  lemma AppliedCount(h: History<seq<Event>>, seen: set<nat>, w: nat, o: FeedOptions)
    requires FullyServed(h, w, o)
    requires Numbered(h.at) && First(h) == h.at && w <= |h.at|
    requires forall id :: id in seen ==> id <= w
    ensures |Filter(Collected(h, w, o), seen, w).applicable| == |h.at| - w
  {
    var applicable := Filter(Collected(h, w, o), seen, w).applicable;
    DeliveryIndependent(h, seen, w, o);
    SortSorts(applicable);
    assert |SortByWatermark(applicable)| == |multiset(SortByWatermark(applicable))| == |multiset(applicable)|;
  }

  lemma SortedDistinct(log: seq<Event>, applied: seq<Event>, sorted: seq<Event>)
    requires Numbered(log) && DistinctIds(applied) && Ascending(sorted)
    requires multiset(sorted) == multiset(applied)
    requires forall e :: e in applied ==> e in log
    ensures Increasing(sorted)
  {
    forall i, j | 0 <= i < j < |sorted| ensures sorted[i].watermark < sorted[j].watermark {
      if sorted[i].watermark == sorted[j].watermark {
        assert sorted[i] in multiset(sorted) && sorted[j] in multiset(sorted);
        assert sorted[i] in applied && sorted[j] in applied;
        assert sorted[i].id == sorted[j].id;
        SameIdSameEvent(log, sorted[i], sorted[j]);
        Twice(sorted, i, j);
        Once(applied, sorted[i]);
      }
    }
  }

  lemma Twice(s: seq<Event>, i: nat, j: nat)
    requires i < j < |s| && s[i] == s[j]
    ensures multiset(s)[s[i]] >= 2
  {
    assert s == s[..j] + [s[j]] + s[j + 1..];
    assert s[..j][i] == s[i];
    assert s[i] in multiset(s[..j]);
  }

  lemma {:induction false} Once(s: seq<Event>, e: Event)
    requires DistinctIds(s)
    ensures multiset(s)[e] <= 1
  {
    if s != [] {
      var init, last := s[..|s| - 1], s[|s| - 1];
      assert s == init + [last];
      Once(init, e);
      if last == e {
        assert e !in init;
      }
    }
  }
}
