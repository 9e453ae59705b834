/** The DeepSee synchronizer: bootstrap from a snapshot, then apply change events incrementally. */
module Synchronizer {
  import opened Outcomes
  import opened ChangeLog
  import opened FoldedDelta
  import opened Paging
  import opened ChangeFeed
  import opened Delivery
  import opened SnapshotPaging
  import opened DeepSeeSource
  import opened DeepSeeClient
  import opened SnapshotReading
  import opened SyncState
  import opened MembershipStore
  import opened SyncProtocol

  /** Where a call is made to fail: the step raises, or an interrupt arrives just before memory is updated. */
  datatype Fault = NoFault | AtStage | AtPublish | AtStateCommit(statement: nat) | BeforeMemory

  datatype SyncReport = SyncReport(
    appliedAdditions: nat,
    appliedRemovals: nat,
    appliedScoreChanges: nat,
    duplicatesSkipped: nat,
    outOfOrderRejected: nat,
    committedWatermark: nat)

  /** What a report says of an applied batch: its folded parts and the new watermark. */
  ghost predicate Reports(report: SyncReport, ordered: seq<Event>, watermark: nat) {
    && report.appliedAdditions == |Fold(ordered).additions|
    && report.appliedRemovals == |Fold(ordered).removals|
    && report.appliedScoreChanges == |Fold(ordered).scoreChanges|
    && report.committedWatermark == watermark
  }

  /** A fetch under way: the pages so far came from `h`, and each carried a next cursor. */
  ghost predicate Fetching(h: History<seq<Event>>, events: seq<Event>, cursor: Option<nat>, since: nat, o: FeedOptions)
  {
    && events == Collected(h, since, o)
    && cursor == (if h.Start? then None else Some(Cursor(h, o.pageSize)))
    && (h.Then? ==> Served(h, since, o) && HasMore(h, since, o))
  }

  lemma FetchingNext(h: History<seq<Event>>, events: seq<Event>, cursor: Option<nat>, log: seq<Event>,
                     h': History<seq<Event>>, batch: ChangeBatch, since: nat, o: FeedOptions)
    requires Fetching(h, events, cursor, since, o)
    requires h.Then? ==> h.at <= log
    requires h' == Then(h, log) && batch == ServeChanges(log, since, cursor, o)
    ensures Served(h', since, o)
    ensures events + batch.events == Collected(h', since, o)
    ensures batch.nextCursor == if HasMore(h', since, o) then Some(Cursor(h', o.pageSize)) else None
  {}

  /** A member without a score counts 1.0, and one with a score keeps it. */
  lemma ScoredExact(ids: seq<int>, scores: map<int, real>, x: int)
    ensures x in Scored(ids, scores) <==> x in ids
    ensures x in ids ==> Scored(ids, scores)[x] == (if x in scores then scores[x] else 1.0)
  {}

  lemma ScoredAll(ids: seq<int>, m: Membership)
    requires ids == SortedIds(m.Keys)
    ensures Scored(ids, m) == m
  {
    SortedIdsList(m.Keys);
    RestrictsAll(Scored(ids, m), m, ids);
  }

  lemma QuietScored(h: History<Membership>, m: Membership, pageSize: nat)
    requires SnapshotServed(h, pageSize)
    ensures Quiet(h, m) ==> Scored(Reassembled(h, pageSize), ReassembledScores(h, pageSize)) == m
  {
    if Quiet(h, m) {
      QuietReassembly(h, m, pageSize);
      ScoredAll(Reassembled(h, pageSize), m);
    }
  }

  function Rows(ordered: seq<Event>): seq<(nat, nat)> {
    seq(|ordered|, i requires 0 <= i < |ordered| => (ordered[i].id, ordered[i].watermark))
  }

  lemma RowIds(ordered: seq<Event>)
    ensures (set row | row in Rows(ordered) :: row.0) == Ids(ordered)
  {
    forall id | id in Ids(ordered) ensures id in set row | row in Rows(ordered) :: row.0 {
      var i :| 0 <= i < |ordered| && ordered[i].id == id;
      assert Rows(ordered)[i] in Rows(ordered);
    }
  }

  /** Every delivery is one of the `applied`, repeats an id, or is late, and the counts say which. */
  ghost predicate Counted(delivered: seq<Event>, seen: set<nat>, w: nat, applied: nat, duplicates: nat, outOfOrder: nat)
  {
    && duplicates == |Repeats(delivered, seen, w)|
    && outOfOrder == |Late(delivered, seen, w)|
    && |delivered| == applied + duplicates + outOfOrder
  }

  lemma AccountedFor(delivered: seq<Event>, seen: set<nat>, w: nat)
    ensures var f := Filter(delivered, seen, w); Counted(delivered, seen, w, |f.applicable|, f.duplicates, f.outOfOrder)
  {
    FilterAccounts(delivered, seen, w);
    FilterCounts(delivered, seen, w);
  }

  /** What the filter makes of a whole fetch that began with the log `start`. */
  lemma Pulled(h: History<seq<Event>>, start: seq<Event>, seen: set<nat>, w: nat, o: FeedOptions, f: Filtered)
    returns (m: nat)
    requires FullyServed(h, w, o) && Numbered(h.at) && w <= |start| && start <= First(h)
    requires forall id :: id in seen ==> id <= w
    requires f == Filter(Collected(h, w, o), seen, w)
    ensures |start| <= m <= |h.at|
    ensures SortByWatermark(f.applicable) == h.at[w..m] && |SortByWatermark(f.applicable)| == |f.applicable| == m - w
    ensures Counted(Collected(h, w, o), seen, w, m - w, f.duplicates, f.outOfOrder)
    ensures forall e :: e in Collected(h, w, o) ==> e in h.at
    ensures h.at == start ==>
              && Collected(h, w, o) == Pending(h.at, w, o)
              && QuietlyCounted(f.duplicates, f.outOfOrder, seen, w, |h.at|, o)
  {
    AccountedFor(Collected(h, w, o), seen, w);
    m := NoGap(h, w, o);
    OrderedBatch(h.at, Collected(h, w, o), seen, w, m);
    SortedSize(f.applicable);
    if h.at == start {
      FirstIsPrefix(h, w, o);
      QuietCounts(h, seen, w, o);
    }
  }

  lemma SortedSize(es: seq<Event>)
    ensures |SortByWatermark(es)| == |es|
  {
    SortSorts(es);
    assert |SortByWatermark(es)| == |multiset(SortByWatermark(es))| == |multiset(es)|;
  }

  /** More events than the page cap lets a reader collect. */
  predicate Overlong(log: seq<Event>, since: nat, o: FeedOptions) {
    MAX_PAGES * o.pageSize < |Pending(log, since, o)|
  }

  lemma CapMeansOverlong(h: History<seq<Event>>, since: nat, o: FeedOptions)
    requires Pages(h) == MAX_PAGES && HasMore(h, since, o)
    ensures Overlong(h.at, since, o) && 10_000 * o.pageSize < |Pending(h.at, since, o)|
  {
    CursorIsProduct(h, o.pageSize);
  }

  class DeepSeeSynchronizer {
    const client: Client
    const store: Store
    const contextId: string
    const repository: StateRepository?
    var committedWatermark: Option<nat>
    var seenEventIds: set<nat>

    constructor (client: Client, store: Store, contextId: string, repository: StateRepository?)
      ensures this.client == client && this.store == store && this.contextId == contextId
      ensures this.repository == repository
      ensures View().memory == View().durable
    {
      this.client, this.store, this.contextId, this.repository := client, store, contextId, repository;
      this.committedWatermark, this.seenEventIds := None, {};
      new;
      if repository != null {
        var watermark, seen := repository.Load(contextId);
        committedWatermark, seenEventIds := watermark, seen;
      }
    }

    /** The protocol state that this synchronizer, its source, its store and its repository make up. */
    function View(): World
      reads this, client.service, store, repository
    {
      World(
        client.service.events,
        store.Holding(contextId),
        if repository == null then NOTHING_YET else repository.Saved(contextId),
        Progress(committedWatermark, seenEventIds),
        repository != null)
    }

    ghost predicate Valid()
      reads this, client, client.service, repository
    {
      && client.Ready()
      && Covered(Progress(committedWatermark, seenEventIds), |client.service.events|)
      && (repository != null ==> Covered(repository.Saved(contextId), |client.service.events|))
    }

    function Feed(): FeedOptions {
      client.service.config.feed
    }

    /** Publish a snapshot, commit the progress durably, and only then remember it. */
    method PublishAndRemember(content: Membership, watermark: nat, ordered: seq<Event>, fault: Fault)
      returns (error: Option<ConnectorError>, ghost reached: Reached)
      modifies this, store, repository
      ensures View() == Updated(old(View()), old(View()).log, content, watermark, Ids(ordered), reached)
      ensures error == None <==> reached == Remembered
      ensures error.Some? ==> !error.value.ScorelessEvent?
      ensures match fault
              case NoFault => reached == Remembered
              case AtStage => reached == Unpublished
              case AtPublish => reached == Unpublished
              case AtStateCommit(n) =>
                reached == if repository != null && n <= |ordered| + 2 then Published else Remembered
              case BeforeMemory => reached == Committed
    {
      if store.staging {
        if fault == AtStage {
          return Some(StageFailed), Unpublished;
        }
        var staged := Staged(contextId, content);
        if fault == AtPublish {
          return Some(PublishFailed), Unpublished;
        }
        store.CommitSnapshot(staged);
      } else {
        if fault == AtStage || fault == AtPublish {
          return Some(PublishFailed), Unpublished;
        }
        store.CommitSnapshot(Staged(contextId, content));
      }
      if repository != null {
        var failAt := if fault.AtStateCommit? then Some(fault.statement) else None;
        RowIds(ordered);
        var ok := repository.Commit(contextId, watermark, Rows(ordered), failAt);
        if !ok {
          return Some(StateCommitFailed), Published;
        }
      }
      if fault == BeforeMemory {
        return Some(Interrupted), Committed;
      }
      committedWatermark := Some(watermark);
      seenEventIds := seenEventIds + Ids(ordered);
      return None, Remembered;
    }

    /** Fetch one more page and add it to the events so far. */
    method FetchChangesPage(since: nat, cursor: Option<nat>, events: seq<Event>, ghost h: History<seq<Event>>)
      returns (r: Result<seq<Event>, ConnectorError>, next: Option<nat>)
      requires client.Ready()
      requires Fetching(h, events, cursor, since, Feed())
      requires h.Then? ==> h.at <= client.service.events
      modifies client, client.service
      ensures client.Ready() && old(client.service.events) <= client.service.events
      ensures client.tally.start == old(client.tally.start) && client.tally.fetches == old(client.tally.fetches) + 1
      ensures r.Ok? ==>
                var h' := Then(h, client.service.events);
                && Served(h', since, Feed())
                && r.value == Collected(h', since, Feed())
                && next == (if HasMore(h', since, Feed()) then Some(Cursor(h', Feed().pageSize)) else None)
                && client.Fresh()
      ensures r.Err? ==> r.error.ServiceFailed? || r.error.StaleData?
      ensures old(client.Alone()) ==> client.Alone() && client.service.events == old(client.service.events)
      ensures old(client.Undisturbed()) ==> r.Ok? && client.Undisturbed()
    {
      var page := client.FetchChanges(since, cursor);
      if page.Err? {
        return Err(page.error), None;
      }
      FetchingNext(h, events, cursor, client.service.events, Then(h, client.service.events), page.value, since, Feed());
      return Ok(events + page.value.events), page.value.nextCursor;
    }

    /** Follow the cursors of the change feed, whatever the source does in the meantime. */
    method FetchAllChanges() returns (r: Result<seq<Event>, ConnectorError>, ghost h: History<seq<Event>>)
      requires Valid() && committedWatermark.Some?
      modifies client, client.service
      ensures Valid() && old(client.service.events) <= client.service.events
      ensures client.tally.start == old(client.tally.start)
      ensures client.tally.fetches <= old(client.tally.fetches) + MAX_PAGES
      ensures r.Ok? ==>
                && FullyServed(h, committedWatermark.value, Feed())
                && r.value == Collected(h, committedWatermark.value, Feed())
                && old(client.service.events) <= First(h) && h.at == client.service.events
                && client.Fresh()
      ensures r.Err? ==> r.error.ServiceFailed? || r.error.StaleData? || r.error.TooManyPages?
      ensures r == Err(TooManyPages) ==>
                Pages(h) == MAX_PAGES && Overlong(h.at, committedWatermark.value, Feed())
      ensures old(client.Alone()) ==> client.service.events == old(client.service.events)
      ensures old(client.Undisturbed()) ==> r.Ok? || Overlong(client.service.events, committedWatermark.value, Feed())
    {
      var since := committedWatermark.value;
      var events: seq<Event> := [];
      var cursor: Option<nat> := None;
      var pages := 0;
      h := Start;
      while true
        invariant client.Ready() && old(client.service.events) <= client.service.events
        invariant pages == Pages(h) <= MAX_PAGES
        invariant client.tally.start == old(client.tally.start)
        invariant client.tally.fetches == old(client.tally.fetches) + pages
        invariant Fetching(h, events, cursor, since, Feed())
        invariant h.Then? ==> old(client.service.events) <= First(h) && h.at <= client.service.events
        invariant old(client.Alone()) ==> client.Alone() && client.service.events == old(client.service.events)
        invariant old(client.Undisturbed()) ==> client.Undisturbed() && (h.Then? ==> h.at == client.service.events)
        decreases MAX_PAGES - pages
      {
        if pages >= MAX_PAGES {
          CapMeansOverlong(h, since, Feed());
          return Err(TooManyPages), h;
        }
        var page, next := FetchChangesPage(since, cursor, events, h);
        if page.Err? {
          return page, h;
        }
        h := Then(h, client.service.events);
        if next == None {
          return page, h;
        }
        events, cursor, pages := page.value, next, pages + 1;
      }
    }

    // ---- Bootstrap -----------------------------------------------------------------------

    /** Fetch one more page of the snapshot and add it to the collection so far. */
    method FetchSnapshotPage(cursor: Option<nat>, collection: Collection, ghost h: History<Membership>)
      returns (r: Result<Collection, ConnectorError>, next: Option<nat>)
      requires Valid() && !client.service.config.bitmapSnapshot
      requires Reading(h, collection, cursor, Feed().pageSize)
      modifies client, client.service
      ensures Valid() && old(client.service.events) <= client.service.events
      ensures client.tally.start == old(client.tally.start) && client.tally.fetches == old(client.tally.fetches) + 1
      ensures r.Ok? ==>
                var h' := Then(h, client.service.members);
                && SnapshotRead(h', Feed().pageSize)
                && r.value == Collection(Reassembled(h', Feed().pageSize), ReassembledScores(h', Feed().pageSize),
                                         |client.service.events|)
                && next == if MoreIds(h', Feed().pageSize) then Some(Cursor(h', Feed().pageSize)) else None
      ensures r.Err? ==> !r.error.TooManyPages?
      ensures old(client.Alone()) ==> client.Alone() && client.service.members == old(client.service.members)
      ensures old(Welcome(client)) ==> r.Ok? && Welcome(client)
    {
      if Welcome(client) {
        var unfailing := client.service.State().(failures := []);
        AcceptablePasses(unfailing, cursor, client.service.config, client.limits);
      }
      var page := client.FetchSnapshot(cursor);
      if page.Err? {
        return Err(page.error), None;
      }
      ReadingNext(h, collection, cursor, client.service.State(), client.service.config);
      return Ok(Extended(collection, page.value)), page.value.nextCursor;
    }

    /** Follow the cursors of the snapshot on from a first page that was served just now. */
    method FollowCursors(firstIds: Collection, firstCursor: Option<nat>, ghost first: History<Membership>)
      returns (r: Result<Collection, ConnectorError>, ghost h: History<Membership>)
      requires Valid() && !client.service.config.bitmapSnapshot
      requires first.Then? && Pages(first) == 1 && first.at == client.service.members
      requires SnapshotRead(first, Feed().pageSize)
      requires firstIds == Collection(Reassembled(first, Feed().pageSize), ReassembledScores(first, Feed().pageSize),
                                      |client.service.events|)
      requires firstCursor == if MoreIds(first, Feed().pageSize) then Some(Cursor(first, Feed().pageSize)) else None
      requires Quiet(first, client.service.members)
      modifies client, client.service
      ensures Valid() && old(client.service.events) <= client.service.events
      ensures client.tally.start == old(client.tally.start)
      ensures client.tally.fetches < old(client.tally.fetches) + MAX_PAGES
      ensures r.Ok? ==>
                && SnapshotServed(h, Feed().pageSize) && h.at == client.service.members
                && r.value == Collection(Reassembled(h, Feed().pageSize), ReassembledScores(h, Feed().pageSize),
                                         |client.service.events|)
      ensures r == Err(TooManyPages) ==> Pages(h) == MAX_PAGES && MoreIds(h, Feed().pageSize)
      ensures old(client.Alone()) ==>
          client.service.members == old(client.service.members) && Quiet(h, client.service.members)
      ensures old(Welcome(client)) ==> r.Ok? || r == Err(TooManyPages)
    {
      var collection, cursor, pages := firstIds, firstCursor, 1;
      h := first;
      while cursor.Some?
        invariant Valid() && old(client.service.events) <= client.service.events
        invariant client.tally.start == old(client.tally.start)
        invariant client.tally.fetches == old(client.tally.fetches) + pages - 1
        invariant pages == Pages(h) <= MAX_PAGES && h.Then? && h.at == client.service.members
        invariant SnapshotRead(h, Feed().pageSize)
        invariant cursor == if MoreIds(h, Feed().pageSize) then Some(Cursor(h, Feed().pageSize)) else None
        invariant collection == Collection(Reassembled(h, Feed().pageSize), ReassembledScores(h, Feed().pageSize),
                                           |client.service.events|)
        invariant old(client.Alone()) ==>
                    && client.Alone() && client.service.members == old(client.service.members)
                    && Quiet(h, client.service.members)
        invariant old(Welcome(client)) ==> Welcome(client)
        decreases MAX_PAGES - pages
      {
        if pages >= MAX_PAGES {
          return Err(TooManyPages), h;
        }
        var page, next := FetchSnapshotPage(cursor, collection, h);
        if page.Err? {
          return page, h;
        }
        h := Then(h, client.service.members);
        collection, cursor, pages := page.value, next, pages + 1;
      }
      return Ok(collection), h;
    }

    /** Reassemble the pages of ids, the first of which is already there. */
    method CollectIdPages(firstPage: SnapshotPage)
      returns (r: Result<Collection, ConnectorError>, ghost h: History<Membership>)
      requires Valid() && !client.service.config.bitmapSnapshot
      requires firstPage == ServeSnapshot(client.service.State(), None, client.service.config)
      modifies client, client.service
      ensures Valid() && old(client.service.events) <= client.service.events
      ensures client.tally.start == old(client.tally.start)
      ensures client.tally.fetches < old(client.tally.fetches) + MAX_PAGES
      ensures r.Ok? ==>
                && SnapshotServed(h, Feed().pageSize) && h.at == client.service.members
                && r.value == Collection(Reassembled(h, Feed().pageSize), ReassembledScores(h, Feed().pageSize),
                                         |client.service.events|)
      ensures r == Err(TooManyPages) ==> Pages(h) == MAX_PAGES && MoreIds(h, Feed().pageSize)
      ensures old(client.Alone()) ==>
          client.service.members == old(client.service.members) && Quiet(h, client.service.members)
      ensures old(Welcome(client)) ==> r.Ok? || r == Err(TooManyPages)
    {
      h := Then(Start, client.service.members);
      FirstPageRead(h, firstPage, client.service.State(), None, client.service.config);
      var collection := Collection(firstPage.entityIds.value, firstPage.scores, firstPage.watermark);
      r, h := FollowCursors(collection, firstPage.nextCursor, h);
    }

    /** Read the whole snapshot: one bitmap page, or the pages of ids. */
    method ReadSnapshot() returns (r: Result<Collection, ConnectorError>, ghost h: History<Membership>)
      requires Valid()
      modifies client, client.service
      ensures Valid() && old(client.service.events) <= client.service.events
      ensures client.tally.start == old(client.tally.start)
      ensures client.tally.fetches <= old(client.tally.fetches) + MAX_PAGES
      ensures r.Ok? ==> r.value.watermark == |client.service.events| && client.Fresh()
      ensures r.Ok? ==> !client.service.config.invalidKeyType
      ensures r.Ok? ==> !(client.service.config.bitmapSnapshot && client.service.config.malformedBitmap)
      ensures r.Ok? && Quiet(h, client.service.members) ==>
          Scored(r.value.members, r.value.scores) == client.service.members
      ensures old(client.Alone()) ==>
          client.service.members == old(client.service.members) && Quiet(h, client.service.members)
      ensures old(Welcome(client)) ==> r.Ok? || Overfull(client.service.members, Feed())
    {
      h := Start;
      if Welcome(client) {
        var unfailing := client.service.State().(failures := []);
        AcceptablePasses(unfailing, None, client.service.config, client.limits);
      }
      var firstPage := client.FetchSnapshot(None);
      if firstPage.Err? {
        return Err(firstPage.error), h;
      }
      var page := firstPage.value;
      if page.bitmap.Some? {
        if page.bitmap.value.decoded == None {
          return Err(MalformedBitmap), h;
        }
        var members := SortedIds(page.bitmap.value.decoded.value);
        ScoredAll(members, client.service.members);
        return Ok(Collection(members, page.scores, page.watermark)), h;
      }
      r, h := CollectIdPages(page);
      if r.Ok? {
        QuietScored(h, client.service.members, Feed().pageSize);
      } else if r.error.TooManyPages? {
        CursorIsProduct(h, Feed().pageSize);
      }
    }

    /** Ingest the full snapshot and commit its watermark. */
    method Bootstrap(fault: Fault)
      returns (r: Result<Membership, ConnectorError>, ghost h: History<Membership>, ghost reached: Reached)
      requires Valid()
      modifies this, client, client.service, store, repository
      ensures Valid()
      ensures old(client.service.events) <= client.service.events
      ensures r.Ok? <==> reached == Remembered
      ensures reached != Unpublished ==> client.Fresh() && !client.service.config.invalidKeyType
      ensures reached != Unpublished ==>
                !(client.service.config.bitmapSnapshot && client.service.config.malformedBitmap)
      ensures reached == Unpublished ==> Appends(old(View()), View())
      ensures reached != Unpublished && Quiet(h, client.service.members)
              ==> Bootstraps(client.service.initial, old(View()), View(), reached)
      ensures r.Ok? && Quiet(h, client.service.members) ==> r.value == client.service.members
      ensures client.service.callCount - old(client.service.callCount) <= MAX_PAGES * (client.policy.maxRetries + 1)
      ensures old(client.Alone()) ==> Quiet(h, client.service.members)
      ensures old(Welcome(client)) && fault == NoFault && !Overfull(old(client.service.members), Feed()) ==> r.Ok?
    {
      reached := Unpublished;
      ghost var before := View();
      var collection;
      client.CountFromHere();
      collection, h := ReadSnapshot();
      CallsBounded(client.tally, MAX_PAGES);
      assert View() == before.(log := View().log);
      if collection.Err? {
        return Err(collection.error), h, reached;
      }
      var content := Scored(collection.value.members, collection.value.scores);
      var error;
      error, reached := PublishAndRemember(content, collection.value.watermark, [], fault);
      SnapshotBootstraps(client.service.initial, before, View(), content, reached);
      r := if error.Some? then Err(error.value) else Ok(content);
    }

    // ---- Incremental sync ----------------------------------------------------------------

    /** Fetch, deduplicate, reject what the boundary covers, and sort: the log between the boundary and `m`. */
    method PullBatch()
      returns (r: Result<Filtered, ConnectorError>, ordered: seq<Event>, ghost m: nat, ghost delivered: seq<Event>)
      requires Valid() && committedWatermark.Some?
      modifies client, client.service
      ensures Valid() && old(client.service.events) <= client.service.events
      ensures r.Ok? ==> client.Fresh()
      ensures r.Ok? ==>
                && |old(client.service.events)| <= m <= |client.service.events|
                && ordered == client.service.events[committedWatermark.value..m]
                && |r.value.applicable| == |ordered|
                && Counted(delivered, seenEventIds, committedWatermark.value, |ordered|,
                           r.value.duplicates, r.value.outOfOrder)
                && (forall e :: e in delivered ==> e in client.service.events)
      ensures old(client.Alone()) && r.Ok? ==>
                && delivered == Pending(client.service.events, committedWatermark.value, Feed())
                && QuietlyCounted(r.value.duplicates, r.value.outOfOrder, seenEventIds, committedWatermark.value,
                                  |client.service.events|, Feed())
      ensures r.Err? ==> r.error.ServiceFailed? || r.error.StaleData? || r.error.TooManyPages?
      ensures client.service.callCount - old(client.service.callCount) <= MAX_PAGES * (client.policy.maxRetries + 1)
      ensures old(client.Alone()) ==> client.service.events == old(client.service.events)
      ensures old(client.Undisturbed()) ==> r.Ok? || Overlong(client.service.events, committedWatermark.value, Feed())
    {
      m, delivered := 0, [];
      var fetched; ghost var h;
      client.CountFromHere();
      fetched, h := FetchAllChanges();
      CallsBounded(client.tally, MAX_PAGES);
      if fetched.Err? {
        return Err(fetched.error), [], m, delivered;
      }
      var filtered := FilterEvents(fetched.value, seenEventIds, committedWatermark.value);
      delivered := fetched.value;
      m := Pulled(h, old(client.service.events), seenEventIds, committedWatermark.value, Feed(), filtered);
      ordered := SortByWatermark(filtered.applicable);
      return Ok(filtered), ordered, m, delivered;
    }

    /** Publish the effect of a folded batch on the store, and record the progress to its last watermark. */
    method PublishDelta(ordered: seq<Event>, delta: Delta, fault: Fault)
      returns (error: Option<ConnectorError>, ghost reached: Reached)
      requires ordered != [] && delta == Fold(ordered)
      modifies this, store, repository
      ensures Applied(old(View()), View(), ordered, reached)
      ensures error == None <==> reached == Remembered
      ensures error == None ==> committedWatermark == Some(ordered[|ordered| - 1].watermark)
      ensures error.Some? ==> !error.value.ScorelessEvent?
      ensures fault == NoFault && old(View()).published.Some? ==> error == None
    {
      if contextId !in store.published {
        return Some(StageFailed), Unpublished;
      }
      var content := ApplyDelta(store.published[contextId], delta);
      error, reached := PublishAndRemember(content, ordered[|ordered| - 1].watermark, ordered, fault);
    }

    /** Fold an ordered batch and publish it; an empty batch changes nothing. */
    method ApplyBatch(ordered: seq<Event>, pulled: Filtered, fault: Fault)
      returns (r: Result<SyncReport, ConnectorError>, ghost reached: Reached)
      requires committedWatermark.Some?
      modifies this, store, repository
      ensures Applied(old(View()), View(), ordered, reached)
      ensures r.Ok? <==> reached == Remembered
      ensures r.Ok? ==>
                committedWatermark.Some? && Reports(r.value, ordered, committedWatermark.value)
      ensures r.Ok? ==>
          r.value.duplicatesSkipped == pulled.duplicates && r.value.outOfOrderRejected == pulled.outOfOrder
      ensures r.Err? && r.error.ScorelessEvent? ==> r.error.event in ordered && Scoreless(r.error.event)
      ensures fault == NoFault && old(View()).published.Some? ==> r.Ok? || r.error.ScorelessEvent?
    {
      if ordered == [] {
        var report := SyncReport(0, 0, 0, pulled.duplicates, pulled.outOfOrder, committedWatermark.value);
        return Ok(report), Remembered;
      }
      var folded := FoldEvents(ordered);
      if folded.Err? {
        return Err(ScorelessEvent(folded.error)), Unpublished;
      }
      var delta := folded.value;
      var error;
      error, reached := PublishDelta(ordered, delta, fault);
      if error.Some? {
        return Err(error.value), reached;
      }
      var report := SyncReport(
        |delta.additions|, |delta.removals|, |delta.scoreChanges|,
        pulled.duplicates, pulled.outOfOrder, ordered[|ordered| - 1].watermark);
      return Ok(report), reached;
    }

    /** Apply what was pulled by a sync that began in the protocol state `before`. */
    method ApplyPulled(ghost before: World, ghost m: nat, ordered: seq<Event>, pulled: Filtered, fault: Fault)
      returns (r: Result<SyncReport, ConnectorError>, ghost reached: Reached)
      requires Valid() && before.memory.watermark.Some?
      requires before.log <= View().log && View() == before.(log := View().log)
      requires |before.log| <= m <= |View().log|
      requires Covered(before.memory, |before.log|) && Covered(before.durable, |before.log|)
      requires ordered == View().log[before.memory.watermark.value..m]
      modifies this, store, repository
      ensures Valid() && Syncs(before, View(), m, reached)
      ensures r.Ok? <==> reached == Remembered
      ensures r.Ok? ==> Reports(r.value, ordered, m)
      ensures r.Ok? ==>
          r.value.duplicatesSkipped == pulled.duplicates && r.value.outOfOrderRejected == pulled.outOfOrder
      ensures r.Err? ==> !r.error.ScorelessEvent?
      ensures fault == NoFault && before.published.Some? ==> r.Ok?
    {
      ghost var log := View().log;
      r, reached := ApplyBatch(ordered, pulled, fault);
      if r.Err? && r.error.ScorelessEvent? {
        NoneScoreless(client.service.initial, log, r.error.event);
      }
      AppliedSyncs(before, View(), m, reached, ordered);
    }

    /** Pull, deduplicate, order-check and apply the pending changes. */
    method SyncOnce(fault: Fault)
      returns (r: Result<SyncReport, ConnectorError>, ghost m: nat, ghost reached: Reached, ghost delivered: seq<Event>)
      requires Valid()
      modifies this, client, client.service, store, repository
      ensures Valid()
      ensures old(committedWatermark) == None ==> r == Err(NotBootstrapped)
      ensures reached != Unpublished ==> client.Fresh()
      ensures Syncs(old(View()), View(), m, reached) || Appends(old(View()), View())
      ensures r.Ok? ==> reached == Remembered && Syncs(old(View()), View(), m, reached)
      ensures r.Ok? ==> Reports(r.value, View().log[old(committedWatermark).value..m], m)
      ensures r.Ok? ==> Counted(delivered, old(seenEventIds), old(committedWatermark).value,
                                m - old(committedWatermark).value,
                                r.value.duplicatesSkipped, r.value.outOfOrderRejected)
      ensures r.Ok? ==> forall e :: e in delivered ==> e in client.service.events
      ensures old(client.Alone()) && r.Ok? ==>
                && delivered == Pending(View().log, old(committedWatermark).value, Feed())
                && QuietlyCounted(r.value.duplicatesSkipped, r.value.outOfOrderRejected, old(seenEventIds),
                                  old(committedWatermark).value, |View().log|, Feed())
      ensures client.service.callCount - old(client.service.callCount) <= MAX_PAGES * (client.policy.maxRetries + 1)
      ensures old(client.Alone()) ==> View().log == old(View()).log
      ensures old(client.Undisturbed()) && fault == NoFault && old(View()).published.Some?
              && old(View()).memory.watermark.Some?
              && !Overlong(old(View()).log, old(View()).memory.watermark.value, Feed())
              ==> r.Ok?
      ensures r.Err? ==> !r.error.ScorelessEvent?
    {
      if committedWatermark == None {
        return Err(NotBootstrapped), 0, Unpublished, [];
      }
      ghost var before := View();
      var batch, ordered;
      batch, ordered, m, delivered := PullBatch();
      assert View() == before.(log := View().log);
      if batch.Err? {
        return Err(batch.error), m, Unpublished, delivered;
      }
      r, reached := ApplyPulled(before, m, ordered, batch.value, fault);
    }
  }
}
