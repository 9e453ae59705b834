/** Reading a paged snapshot through the client: how the pages served add up to the reassembled membership. */
module SnapshotReading {
  import opened Outcomes
  import opened Paging
  import opened ChangeLog
  import opened ChangeFeed
  import opened SnapshotPaging
  import opened DeepSeeSource
  import opened DeepSeeClient

  /** The synchronizer and the provider give up on more pages than this. */
  const MAX_PAGES := 10_000

  datatype Collection = Collection(members: seq<int>, scores: map<int, real>, watermark: nat)

  /** A snapshot read under way: each page was served from the membership of its time, and more was to come. */
  ghost predicate Reading(h: History<Membership>, c: Collection, cursor: Option<nat>, pageSize: nat) {
    && c.members == Reassembled(h, pageSize) && c.scores == ReassembledScores(h, pageSize)
    && cursor == (if h.Start? then None else Some(Cursor(h, pageSize)))
    && (h.Then? ==> SnapshotRead(h, pageSize) && MoreIds(h, pageSize))
  }

  function Extended(c: Collection, page: SnapshotPage): Collection
    requires page.entityIds.Some?
  {
    Collection(c.members + page.entityIds.value, c.scores + page.scores, page.watermark)
  }

  /** One served page, in the terms of the paging model. */
  lemma PageServed(s: SourceState, cursor: Option<nat>, offset: nat, config: ServiceConfig)
    requires !config.bitmapSnapshot && offset == if cursor.Some? then cursor.value else 0
    ensures var page, ids := ServeSnapshot(s, cursor, config), IdsAt(s.members, offset, config.feed.pageSize);
            && page.entityIds == Some(ids) && page.scores == ScoresOf(s.members, ids)
            && page.evidenceRefs == (map x | x in ids :: EvidenceRef(x))
            && page.watermark == |s.events| && page.bitmap == None
            && page.nextCursor == if offset + config.feed.pageSize < |s.members|
                                  then Some(offset + config.feed.pageSize) else None
  {
    SortedIdsSize(s.members);
  }

  lemma ReadingNext(h: History<Membership>, c: Collection, cursor: Option<nat>, s: SourceState, config: ServiceConfig)
    requires !config.bitmapSnapshot
    requires Reading(h, c, cursor, config.feed.pageSize)
    ensures var page, h', pageSize := ServeSnapshot(s, cursor, config), Then(h, s.members), config.feed.pageSize;
            && page.entityIds.Some?
            && Extended(c, page) ==
               Collection(Reassembled(h', pageSize), ReassembledScores(h', pageSize), |s.events|)
            && SnapshotRead(h', pageSize)
            && page.nextCursor == if MoreIds(h', pageSize) then Some(Cursor(h', pageSize)) else None
  {
    PageServed(s, cursor, Cursor(h, config.feed.pageSize), config);
  }

  lemma FirstPageRead(h: History<Membership>, page: SnapshotPage, s: SourceState,
                      cursor: Option<nat>, config: ServiceConfig)
    requires !config.bitmapSnapshot && cursor == None && page == ServeSnapshot(s, cursor, config)
    requires h.Then? && h.before.Start? && h.at == s.members
    ensures var pageSize := config.feed.pageSize;
            && page.entityIds.Some?
            && page.evidenceRefs == (map x | x in page.entityIds.value :: EvidenceRef(x))
            && Collection(page.entityIds.value, page.scores, page.watermark) ==
               Collection(Reassembled(h, pageSize), ReassembledScores(h, pageSize), |s.events|)
            && SnapshotRead(h, pageSize)
            && page.nextCursor == if MoreIds(h, pageSize) then Some(Cursor(h, pageSize)) else None
  {
    var pageSize := config.feed.pageSize;
    PageServed(s, cursor, Cursor(h.before, pageSize), config);
    var ids := IdsAt(s.members, Cursor(h.before, pageSize), pageSize);
    assert Reassembled(h, pageSize) == Reassembled(h.before, pageSize) + ids == ids;
    assert ReassembledScores(h, pageSize) == ReassembledScores(h.before, pageSize) + ScoresOf(s.members, ids);
  }

  // ---- A removal in the middle of a read -------------------------------------------------

  /** `h` goes on from `h0` with pages served from `m`. */
  ghost predicate GoesOn(h: History<Membership>, h0: History<Membership>, m: Membership) {
    h == h0 || (h.Then? && h.at == m && GoesOn(h.before, h0, m))
  }

  /** Behind `start`, `got` has what the list holds between two offsets. */
  ghost predicate ReadOn(start: seq<int>, got: seq<int>, ids: seq<int>, from: nat, to: nat) {
    from <= to && got == start + Slice(ids, from, to)
  }

  lemma NothingRead(start: seq<int>, ids: seq<int>, from: nat)
    ensures ReadOn(start, start, ids, from, from)
  {}

  lemma PageReadOn(start: seq<int>, got: seq<int>, ids: seq<int>, from: nat, mid: nat, to: nat)
    requires ReadOn(start, got, ids, from, mid) && mid <= to
    ensures ReadOn(start, got + Slice(ids, mid, to), ids, from, to)
  {
    SlicesJoin(ids, from, mid, to);
  }

  lemma PageAdded(h: History<Membership>, pageSize: nat, mid: nat, to: nat)
    requires h.Then? && mid == Cursor(h.before, pageSize) && to == Cursor(h, pageSize)
    ensures mid <= to
    ensures Reassembled(h, pageSize) == Reassembled(h.before, pageSize) + Slice(SortedIds(h.at.Keys), mid, to)
  {}

  lemma {:induction false} GoesOnReads(h: History<Membership>, h0: History<Membership>, m: Membership, pageSize: nat)
    requires GoesOn(h, h0, m)
    ensures ReadOn(Reassembled(h0, pageSize), Reassembled(h, pageSize), SortedIds(m.Keys),
                   Cursor(h0, pageSize), Cursor(h, pageSize))
  {
    var start, ids, from := Reassembled(h0, pageSize), SortedIds(m.Keys), Cursor(h0, pageSize);
    if h == h0 {
      NothingRead(start, ids, from);
    } else {
      var mid, to := Cursor(h.before, pageSize), Cursor(h, pageSize);
      GoesOnReads(h.before, h0, m, pageSize);
      PageAdded(h, pageSize, mid, to);
      PageReadOn(start, Reassembled(h.before, pageSize), ids, from, mid, to);
    }
  }

  lemma RemovedIds(s: SourceState, i: nat)
    requires i < |SortedIds(s.members.Keys)|
    ensures var ids := SortedIds(s.members.Keys);
            SortedIds(Act(s, RemoveMember(ids[i])).members.Keys) == ids[..i] + ids[i + 1..]
  {
    var ids := SortedIds(s.members.Keys);
    var after := Act(s, RemoveMember(ids[i])).members;
    SortedIdsList(s.members.Keys);
    SortedIdsList(after.Keys);
    ListWithout(ids, s.members.Keys, i);
    assert after.Keys == s.members.Keys - {ids[i]};
    ListsUnique(SortedIds(after.Keys), ids[..i] + ids[i + 1..], after.Keys);
  }

  /** The lists behind it: read up to the cursor with the member, and from the cursor on without. */
  lemma TornList(ids: seq<int>, ids': seq<int>, i: nat, cursor: nat, got: seq<int>)
    requires StrictlyAscending(ids) && i < |ids| && cursor < |ids|
    requires ids' == ids[..i] + ids[i + 1..] && got == ids[..cursor] + ids'[Min(cursor, |ids'|)..]
    ensures got == ids' <==> cursor <= i
    ensures i < cursor ==> ids[cursor] in ids' && ids[cursor] !in got && ids[i] !in ids' && ids[i] in got
  {
    if i < cursor {
      assert ids'[cursor - 1] == ids[cursor];
      assert got[i] == ids[i];
      assert ids'[Min(cursor, |ids'|)..] == ids[cursor + 1..];
      forall j | 0 <= j < |got| ensures got[j] != ids[cursor] {
        assert got[j] == if j < cursor then ids[j] else ids[j + 1];
      }
    }
  }

  /** A read that was at a cursor when the membership changed, and then went on to the end. */
  ghost predicate ReadAcross(h: History<Membership>, h0: History<Membership>, before: Membership, after: Membership,
                             pageSize: nat)
  {
    && Quiet(h0, before) && SnapshotRead(h0, pageSize) && Cursor(h0, pageSize) < |before|
    && h != h0 && GoesOn(h, h0, after) && SnapshotServed(h, pageSize)
  }

  lemma ReadAcrossGets(h: History<Membership>, h0: History<Membership>, before: Membership, after: Membership,
                       pageSize: nat)
    requires ReadAcross(h, h0, before, after, pageSize)
    ensures var ids, ids', cursor := SortedIds(before.Keys), SortedIds(after.Keys), Cursor(h0, pageSize);
            cursor < |ids| && Reassembled(h, pageSize) == ids[..cursor] + ids'[Min(cursor, |ids'|)..]
  {
    SortedIdsSize(before);
    SortedIdsSize(after);
    QuietPrefix(h0, before, pageSize);
    GoesOnReads(h, h0, after, pageSize);
  }

  /**
   * Why a bootstrap needs a quiet source. When the source removes its member number `i` while a paged read is at
   * some cursor, and then stays quiet, the read gives the members that remain if and only if the cursor had not
   * passed that member; otherwise it keeps the removed member and misses one that never left.
   */
  lemma TornExact(h: History<Membership>, h0: History<Membership>, s: SourceState, i: nat, pageSize: nat,
                  ids: seq<int>, after: Membership)
    requires ids == SortedIds(s.members.Keys) && i < |ids| && after == Act(s, RemoveMember(ids[i])).members
    requires ReadAcross(h, h0, s.members, after, pageSize)
    ensures var got, cursor := Reassembled(h, pageSize), Cursor(h0, pageSize);
            && cursor < |ids|
            && (got == SortedIds(after.Keys) <==> cursor <= i)
            && (i < cursor ==> ids[cursor] in after && ids[cursor] !in got && ids[i] !in after && ids[i] in got)
  {
    SortedIdsList(s.members.Keys);
    SortedIdsList(after.Keys);
    RemovedIds(s, i);
    ReadAcrossGets(h, h0, s.members, after, pageSize);
    TornList(ids, SortedIds(after.Keys), i, Cursor(h0, pageSize), Reassembled(h, pageSize));
  }

  // ---- When a read succeeds --------------------------------------------------------------

  /** Bitmaps hold 64-bit ids. */
  const ID_LIMIT := 0x1_0000_0000_0000_0000

  /** Snapshots of this membership can be served and pass the client's checks. */
  predicate Acceptable(m: Membership, config: ServiceConfig, limits: Limits) {
    && !config.invalidKeyType && !config.malformedBitmap
    && (forall x :: x in m ==> 0 <= x < ID_LIMIT)
    && (config.bitmapSnapshot ==> config.bitmapBytes(m.Keys) <= limits.maxPayloadBytes)
  }

  /** Snapshot pages of the client's source are served, whatever failures they take, and pass the checks. */
  predicate Welcome(client: Client)
    reads client.service
  {
    client.Undisturbed() && Acceptable(client.service.members, client.service.config, client.limits)
  }

  /** More members than the page cap lets a reader collect. */
  predicate Overfull(m: Membership, o: FeedOptions) {
    MAX_PAGES * o.pageSize < |m|
  }

  lemma IdsValid(m: Membership, offset: nat, pageSize: nat)
    requires forall x :: x in m ==> x >= 0
    ensures FirstInvalid(IdsAt(m, offset, pageSize)) == None
  {
    var ids := IdsAt(m, offset, pageSize);
    SortedIdsList(m.Keys);
    forall i | 0 <= i < |ids| ensures ids[i] >= 0 {
      assert ids[i] in SortedIds(m.Keys);
    }
  }

  lemma IdsPass(page: SnapshotPage, ids: seq<int>, limits: Limits)
    requires page.entityIds == Some(ids) && page.supportedKeyType && page.bitmap == None
    requires FirstInvalid(ids) == None && !Stale(page.dataAsOf, limits)
    ensures CheckSnapshot(page, limits) == None
  {}

  lemma AcceptablePasses(s: SourceState, cursor: Option<nat>, config: ServiceConfig, limits: Limits)
    requires Acceptable(s.members, config, limits) && !Stale(DataAsOf(s.events, config), limits)
    ensures CheckSnapshot(ServeSnapshot(s, cursor, config), limits) == None
  {
    if !config.bitmapSnapshot {
      var offset := if cursor.Some? then cursor.value else 0;
      var ids := IdsAt(s.members, offset, config.feed.pageSize);
      IdsValid(s.members, offset, config.feed.pageSize);
      IdsPass(ServeSnapshot(s, cursor, config), ids, limits);
    }
  }
}
