/** The MCP provider: membership with scores, cut to the best `limit` ids, as a list or as a bitmap. */
module McpProvider {
  import opened Outcomes
  import opened Paging
  import opened ChangeLog
  import opened SnapshotPaging
  import opened DeepSeeSource
  import opened DeepSeeClient
  import opened SnapshotReading

  const DEFAULT_SCORE := 1.0

  datatype McpResult = McpResult(
    entityIds: Option<seq<int>>,
    bitmap: Option<Bitmap>,
    scores: map<int, real>,
    evidenceRefs: map<int, string>,
    watermark: nat)

  // ---- Ranking ---------------------------------------------------------------------------

  function Score(scores: map<int, real>, id: int): real {
    if id in scores then scores[id] else DEFAULT_SCORE
  }

  /** Higher score first, then lower id. */
  predicate Better(scores: map<int, real>, a: int, b: int) {
    Score(scores, a) > Score(scores, b) || (Score(scores, a) == Score(scores, b) && a < b)
  }

  function Insert(scores: map<int, real>, id: int, ranked: seq<int>): seq<int> {
    if ranked == [] || !Better(scores, id, ranked[|ranked| - 1]) then ranked + [id]
    else Insert(scores, id, ranked[..|ranked| - 1]) + [ranked[|ranked| - 1]]
  }

  /** The stable sort by (score descending, id ascending). */
  function Ranked(scores: map<int, real>, ids: seq<int>): seq<int> {
    if ids == [] then []
    else Insert(scores, ids[|ids| - 1], Ranked(scores, ids[..|ids| - 1]))
  }

  /** The list up to `limit`; a negative limit counts from the end. */
  function UpTo(ids: seq<int>, limit: int): seq<int> {
    if limit >= |ids| then ids
    else if limit >= 0 then ids[..limit]
    else if |ids| + limit >= 0 then ids[..|ids| + limit]
    else []
  }

  predicate IsCut(ids: seq<int>, limit: Option<int>) {
    limit.Some? && |ids| > limit.value
  }

  function KeptIds(ids: seq<int>, scores: map<int, real>, limit: Option<int>): seq<int> {
    if IsCut(ids, limit) then UpTo(Ranked(scores, ids), limit.value) else ids
  }

  function Restricted<T>(m: map<int, T>, ids: seq<int>): map<int, T> {
    map i | i in m && i in ids :: m[i]
  }

  function Selected(ids: seq<int>, scores: map<int, real>, refs: map<int, string>, watermark: nat,
                    limit: Option<int>, threshold: int): McpResult {
    var kept := KeptIds(ids, scores, limit);
    var scores' := if IsCut(ids, limit) then Restricted(scores, kept) else scores;
    var refs' := if IsCut(ids, limit) then Restricted(refs, kept) else refs;
    if |kept| >= threshold
    then McpResult(None, Some(Bitmap(Some(set i | i in kept))), scores', refs', watermark)
    else McpResult(Some(kept), None, scores', refs', watermark)
  }

  /** The ids that a result stands for, whatever its form. */
  function Denotes(r: McpResult): set<int> {
    if r.entityIds.Some? then set i | i in r.entityIds.value
    else if r.bitmap.Some? && r.bitmap.value.decoded.Some? then r.bitmap.value.decoded.value
    else {}
  }

  ghost predicate RankedBy(scores: map<int, real>, ids: seq<int>) {
    forall i, j :: 0 <= i < j < |ids| ==> Better(scores, ids[i], ids[j])
  }

  predicate Distinct(ids: seq<int>) {
    forall i, j :: 0 <= i < j < |ids| ==> ids[i] != ids[j]
  }

  lemma {:induction false} InsertPermutes(scores: map<int, real>, id: int, ranked: seq<int>)
    ensures multiset(Insert(scores, id, ranked)) == multiset(ranked) + multiset{id}
  {
    if !(ranked == [] || !Better(scores, id, ranked[|ranked| - 1])) {
      var init, last := ranked[..|ranked| - 1], ranked[|ranked| - 1];
      assert ranked == init + [last];
      InsertPermutes(scores, id, init);
    }
  }

  lemma {:induction false} InsertRanks(scores: map<int, real>, id: int, ranked: seq<int>)
    requires RankedBy(scores, ranked) && id !in ranked
    ensures RankedBy(scores, Insert(scores, id, ranked))
  {
    if ranked == [] || !Better(scores, id, ranked[|ranked| - 1]) {
      forall i | 0 <= i < |ranked| ensures Better(scores, ranked[i], id) {
        assert ranked[i] != id;
      }
    } else {
      var init, last := ranked[..|ranked| - 1], ranked[|ranked| - 1];
      InsertRanks(scores, id, init);
      InsertPermutes(scores, id, init);
      var r := Insert(scores, id, init);
      forall i | 0 <= i < |r| ensures Better(scores, r[i], last) {
        assert r[i] in multiset(r);
        assert r[i] == id || r[i] in init;
      }
    }
  }

  lemma {:induction false} RankedSorts(scores: map<int, real>, ids: seq<int>)
    ensures multiset(Ranked(scores, ids)) == multiset(ids)
    ensures Distinct(ids) ==> RankedBy(scores, Ranked(scores, ids))
  {
    if ids != [] {
      var init, last := ids[..|ids| - 1], ids[|ids| - 1];
      RankedSorts(scores, init);
      InsertPermutes(scores, last, Ranked(scores, init));
      assert ids == init + [last];
      if Distinct(ids) {
        assert last !in init;
        assert last !in multiset(Ranked(scores, init));
        InsertRanks(scores, last, Ranked(scores, init));
      }
    }
  }

  /** The scores with the missing ones of these ids filled in. */
  function WithMissing(scores: map<int, real>, ids: seq<int>, score: real): map<int, real> {
    map i | i in scores.Keys + (set i | i in ids) :: if i in scores then scores[i] else score
  }

  /** An id without a score ranks exactly as it would with the score 1.0. */
  lemma {:induction false} MissingScores(scores: map<int, real>, ids: seq<int>, all: seq<int>)
    requires forall i :: i in ids ==> i in all
    ensures Ranked(scores, ids) == Ranked(WithMissing(scores, all, 1.0), ids)
  {
    if ids != [] {
      var init, last := ids[..|ids| - 1], ids[|ids| - 1];
      MissingScores(scores, init, all);
      RankedSorts(scores, init);
      SameRanks(scores, WithMissing(scores, all, 1.0), last, Ranked(scores, init), all);
    }
  }

  lemma {:induction false} SameRanks(scores: map<int, real>, filled: map<int, real>, id: int, ranked: seq<int>,
                                     all: seq<int>)
    requires filled == WithMissing(scores, all, 1.0) && id in all
    requires forall i :: i in multiset(ranked) ==> i in all
    ensures Insert(scores, id, ranked) == Insert(filled, id, ranked)
  {
    if ranked != [] {
      var init, last := ranked[..|ranked| - 1], ranked[|ranked| - 1];
      assert ranked == init + [last];
      assert last in multiset(ranked);
      SameRanks(scores, filled, id, init, all);
    }
  }

  /** Two ranked lists of the same ids are the same list. */
  lemma {:induction false} RankedUnique(scores: map<int, real>, a: seq<int>, b: seq<int>)
    requires RankedBy(scores, a) && RankedBy(scores, b)
    requires forall i :: i in a <==> i in b
    ensures a == b
  {
    assert a != [] ==> a[0] in a && a[0] in b;
    assert b != [] ==> b[0] in b && b[0] in a;
    if a != [] && b != [] {
      var x, y := a[|a| - 1], b[|b| - 1];
      assert x in b && y in a;
      assert x == y;
      var a', b' := a[..|a| - 1], b[..|b| - 1];
      assert forall i :: i in a <==> i in a' || i == x;
      assert forall i :: i in b <==> i in b' || i == x;
      assert x !in a' && x !in b';
      RankedUnique(scores, a', b');
    }
  }

  lemma SameElements(a: seq<int>, b: seq<int>)
    requires multiset(a) == multiset(b)
    ensures |a| == |b| && forall i :: i in a <==> i in b
  {
    assert |multiset(a)| == |a| && |multiset(b)| == |b|;
    assert forall i :: i in a <==> i in multiset(a);
    assert forall i :: i in b <==> i in multiset(b);
  }

  /** `best` is the best `k` of `ids`: ranked, drawn from them, and better than everything left out. */
  ghost predicate BestOf(scores: map<int, real>, ids: seq<int>, best: seq<int>, k: nat) {
    && |best| == k && RankedBy(scores, best)
    && (forall i :: i in best ==> i in ids)
    && (forall i, j :: i in best && j in ids && j !in best ==> Better(scores, i, j))
  }

  lemma PrefixBest(scores: map<int, real>, ids: seq<int>, k: nat)
    requires Distinct(ids) && k <= |ids|
    ensures |Ranked(scores, ids)| == |ids|
    ensures BestOf(scores, ids, Ranked(scores, ids)[..k], k)
  {
    var ranked := Ranked(scores, ids);
    RankedSorts(scores, ids);
    SameElements(ranked, ids);
    var best := ranked[..k];
    assert forall p :: 0 <= p < k ==> ranked[p] in best;
    forall i, j | i in best && j in ids && j !in best ensures Better(scores, i, j) {
      var p :| 0 <= p < k && ranked[p] == i;
      assert j in ranked;
      var q :| 0 <= q < |ranked| && ranked[q] == j;
    }
  }

  lemma {:induction false} PigeonHole(scores: map<int, real>, a: seq<int>, b: seq<int>)
    requires RankedBy(scores, a) && RankedBy(scores, b) && |a| == |b|
    requires forall i :: i in a ==> i in b
    ensures forall i :: i in b ==> i in a
  {
    var sa, sb := set i | i in a, set i | i in b;
    DistinctSize(a);
    DistinctSize(b);
    assert sa <= sb;
    SubsetSize(sa, sb);
    assert forall i :: i in b ==> i in sb;
  }

  lemma SubsetSize(a: set<int>, b: set<int>)
    requires a <= b && |a| == |b|
    ensures a == b
  {
    assert b == a + (b - a);
    assert |b| == |a| + |b - a|;
  }

  lemma {:induction false} DistinctSize(ids: seq<int>)
    requires Distinct(ids)
    ensures |set i | i in ids| == |ids|
  {
    if ids != [] {
      var init, last := ids[..|ids| - 1], ids[|ids| - 1];
      DistinctSize(init);
      assert (set i | i in ids) == (set i | i in init) + {last};
    }
  }

  /** The best `k` are unique. */
  lemma BestUnique(scores: map<int, real>, ids: seq<int>, a: seq<int>, b: seq<int>, k: nat)
    requires BestOf(scores, ids, a, k) && BestOf(scores, ids, b, k)
    ensures a == b
  {
    if i :| i in a && i !in b {
      forall j | j in b ensures j in a {
        assert Better(scores, j, i);
        assert j !in a ==> Better(scores, i, j);
      }
      PigeonHole(scores, b, a);
    }
    PigeonHole(scores, a, b);
    RankedUnique(scores, a, b);
  }

  /** Ranking does not depend on the order in which distinct ids arrived. */
  lemma ArrivalIndependent(scores: map<int, real>, ids: seq<int>, ids': seq<int>)
    requires Distinct(ids) && Distinct(ids') && multiset(ids) == multiset(ids')
    ensures Ranked(scores, ids) == Ranked(scores, ids')
  {
    RankedSorts(scores, ids);
    RankedSorts(scores, ids');
    SameElements(Ranked(scores, ids), Ranked(scores, ids'));
    RankedUnique(scores, Ranked(scores, ids), Ranked(scores, ids'));
  }

  /** A result stands for the kept ids, as a list or as a bitmap. */
  lemma SelectedDenotes(ids: seq<int>, scores: map<int, real>, refs: map<int, string>, watermark: nat,
                        limit: Option<int>, threshold: int)
    ensures Denotes(Selected(ids, scores, refs, watermark, limit, threshold)) ==
            set i | i in KeptIds(ids, scores, limit)
  {}

  /** How many ids a limit leaves of `n`; a negative limit counts from the end. */
  function Left(n: nat, limit: Option<int>): nat {
    if limit == None || limit.value >= n then n
    else if limit.value >= 0 then limit.value
    else if n >= -limit.value then n + limit.value else 0
  }

  /** The form of a result, by how many ids are left: a list below the threshold, a bitmap from it on. */
  lemma SelectedForm(ids: seq<int>, scores: map<int, real>, refs: map<int, string>, watermark: nat,
                     limit: Option<int>, threshold: int)
    ensures var r, left := Selected(ids, scores, refs, watermark, limit, threshold), Left(|ids|, limit);
            && r.watermark == watermark
            && (left < threshold ==> r.bitmap == None && r.entityIds.Some? && |r.entityIds.value| == left)
            && (left >= threshold ==> r.entityIds == None && r.bitmap == Some(Bitmap(Some(Denotes(r)))))
            && (limit == None || |ids| <= limit.value ==>
                  && Denotes(r) == (set i | i in ids) && r.scores == scores && r.evidenceRefs == refs
                  && (r.entityIds.Some? ==> r.entityIds.value == ids))
  {
    KeptSize(ids, scores, limit);
  }

  lemma KeptSize(ids: seq<int>, scores: map<int, real>, limit: Option<int>)
    ensures |KeptIds(ids, scores, limit)| == Left(|ids|, limit)
  {
    RankedSize(scores, ids);
  }

  lemma RankedSize(scores: map<int, real>, ids: seq<int>)
    ensures |Ranked(scores, ids)| == |ids|
  {
    RankedSorts(scores, ids);
    assert |Ranked(scores, ids)| == |multiset(Ranked(scores, ids))| == |multiset(ids)|;
  }

  /**
   * Top-k selection: a cut keeps the unique best ids, and restricts scores and evidence to exactly those.
   */
  lemma TopSelected(ids: seq<int>, scores: map<int, real>, refs: map<int, string>, watermark: nat,
                    limit: int, threshold: int, best: seq<int>)
    requires Distinct(ids) && limit < |ids|
    requires BestOf(scores, ids, best, Left(|ids|, Some(limit)))
    ensures var r := Selected(ids, scores, refs, watermark, Some(limit), threshold);
            && Denotes(r) == (set i | i in best)
            && (r.entityIds.Some? ==> r.entityIds.value == best)
            && r.scores == Restricted(scores, best)
            && r.evidenceRefs == Restricted(refs, best)
  {
    var k := Left(|ids|, Some(limit));
    RankedSize(scores, ids);
    PrefixBest(scores, ids, k);
    assert KeptIds(ids, scores, Some(limit)) == Ranked(scores, ids)[..k];
    BestUnique(scores, ids, KeptIds(ids, scores, Some(limit)), best, k);
    SelectedDenotes(ids, scores, refs, watermark, Some(limit), threshold);
  }

  /** Neither the arrival order nor the form of the result changes what it denotes. */
  lemma SelectionIndependent(ids: seq<int>, ids': seq<int>,
                             scores: map<int, real>, refs: map<int, string>, watermark: nat,
                             limit: Option<int>, threshold: int, threshold': int)
    requires Distinct(ids) && Distinct(ids') && multiset(ids) == multiset(ids')
    ensures Denotes(Selected(ids, scores, refs, watermark, limit, threshold)) ==
            Denotes(Selected(ids', scores, refs, watermark, limit, threshold'))
  {
    SameElements(ids, ids');
    ArrivalIndependent(scores, ids, ids');
    SelectedDenotes(ids, scores, refs, watermark, limit, threshold);
    SelectedDenotes(ids', scores, refs, watermark, limit, threshold');
  }

  // ---- The provider ----------------------------------------------------------------------

  function RefsOf(ids: seq<int>): map<int, string> {
    map x | x in ids :: EvidenceRef(x)
  }

  lemma RefsAppend(a: seq<int>, b: seq<int>)
    ensures RefsOf(a) + RefsOf(b) == RefsOf(a + b)
  {}

  /** What the provider makes of the pages it followed. */
  function SelectedPages(h: History<Membership>, pageSize: nat, watermark: nat, limit: Option<int>, threshold: int)
    : McpResult
  {
    var ids := Reassembled(h, pageSize);
    Selected(ids, ReassembledScores(h, pageSize), RefsOf(ids), watermark, limit, threshold)
  }

  /** The selection from a membership: see `BestMembers` and `OfMembersBest`. */
  function OfMembers(m: Membership, watermark: nat, limit: Option<int>, threshold: int): McpResult {
    var ids := SortedIds(m.Keys);
    Selected(ids, m, RefsOf(ids), watermark, limit, threshold)
  }

  /** From a quiet source the answer depends on the membership and the limit alone, not on the page size. */
  lemma ResolvedQuietly(h: History<Membership>, m: Membership, pageSize: nat, watermark: nat, limit: Option<int>,
                        threshold: int)
    requires SnapshotServed(h, pageSize)
    ensures Quiet(h, m) ==>
              SelectedPages(h, pageSize, watermark, limit, threshold) == OfMembers(m, watermark, limit, threshold)
  {
    if Quiet(h, m) {
      QuietReassembly(h, m, pageSize);
    }
  }

  /** `best` is the `k` members with the highest scores, equal scores by lower id, best first. */
  ghost predicate BestMembers(m: Membership, best: seq<int>, k: nat) {
    && |best| == k && (forall i :: i in best ==> i in m)
    && (forall i, j :: 0 <= i < j < |best| ==>
          m[best[i]] > m[best[j]] || (m[best[i]] == m[best[j]] && best[i] < best[j]))
    && (forall i, j :: i in best && j in m && j !in best ==> m[i] > m[j] || (m[i] == m[j] && i < j))
  }

  lemma BestMeans(m: Membership, best: seq<int>, ids: seq<int>, k: nat)
    requires forall i :: i in ids <==> i in m
    ensures BestMembers(m, best, k) <==> BestOf(m, ids, best, k)
  {
    if BestMembers(m, best, k) {
      forall i, j | 0 <= i < j < |best| ensures Better(m, best[i], best[j]) {
        assert best[i] in best && best[j] in best;
      }
    }
    if BestOf(m, ids, best, k) {
      assert forall i :: 0 <= i < |best| ==> best[i] in best && best[i] in m;
      forall i, j | 0 <= i < j < |best|
        ensures m[best[i]] > m[best[j]] || (m[best[i]] == m[best[j]] && best[i] < best[j])
      {
        assert Better(m, best[i], best[j]);
      }
    }
  }

  /** There are such members, and only one list of them. */
  lemma BestMembersExist(m: Membership, k: nat) returns (best: seq<int>)
    requires k <= |m|
    ensures BestMembers(m, best, k)
    ensures forall other :: BestMembers(m, other, k) ==> other == best
  {
    var ids := SortedIds(m.Keys);
    SortedIdsList(m.Keys);
    SortedIdsSize(m);
    PrefixBest(m, ids, k);
    best := Ranked(m, ids)[..k];
    BestMeans(m, best, ids, k);
    forall other | BestMembers(m, other, k) ensures other == best {
      BestMeans(m, other, ids, k);
      BestUnique(m, ids, other, best, k);
    }
  }

  lemma BestRestricted(m: Membership, ids: seq<int>, best: seq<int>)
    requires (forall i :: i in best ==> i in m) && (forall i :: i in m ==> i in ids)
    ensures Restricted(m, best) == ScoresOf(m, best)
    ensures Restricted(RefsOf(ids), best) == RefsOf(best)
  {
    var scores, refs := Restricted(m, best), Restricted(RefsOf(ids), best);
    assert forall i :: i in scores <==> i in ScoresOf(m, best);
    assert forall i :: i in refs <==> i in RefsOf(best);
  }

  /**
   * A cut selection from a membership denotes its unique best members, in order when it is a list, with exactly
   * their scores and their evidence.
   */
  lemma OfMembersBest(m: Membership, watermark: nat, limit: int, threshold: int, best: seq<int>)
    requires limit < |m| && BestMembers(m, best, Left(|m|, Some(limit)))
    ensures var r := OfMembers(m, watermark, Some(limit), threshold);
            && Denotes(r) == (set i | i in best)
            && (r.entityIds.Some? ==> r.entityIds.value == best)
            && r.scores == ScoresOf(m, best)
            && r.evidenceRefs == RefsOf(best)
            && r.watermark == watermark
            && (r.entityIds.Some? <==> |best| < threshold) && (r.bitmap.Some? <==> threshold <= |best|)
  {
    SortedIdsList(m.Keys);
    SortedIdsSize(m);
    var ids := SortedIds(m.Keys);
    BestMeans(m, best, ids, Left(|m|, Some(limit)));
    TopSelected(ids, m, RefsOf(ids), watermark, limit, threshold, best);
    SelectedForm(ids, m, RefsOf(ids), watermark, Some(limit), threshold);
    BestRestricted(m, ids, best);
  }

  /** An uncut selection is the whole membership, in ascending order when it is a list, with its scores and evidence. */
  lemma OfMembersAll(m: Membership, watermark: nat, limit: Option<int>, threshold: int)
    requires limit == None || |m| <= limit.value
    ensures var r := OfMembers(m, watermark, limit, threshold);
            && Denotes(r) == m.Keys
            && r.scores == m && r.evidenceRefs.Keys == m.Keys
            && (forall x :: x in m ==> r.evidenceRefs[x] == EvidenceRef(x))
            && r.watermark == watermark
            && (r.entityIds.Some? <==> |m| < threshold) && (r.bitmap.Some? <==> threshold <= |m|)
            && (r.entityIds.Some? ==> forall i, j :: 0 <= i < j < |r.entityIds.value| ==>
                  r.entityIds.value[i] < r.entityIds.value[j])
  {
    SortedIdsList(m.Keys);
    SortedIdsSize(m);
    SelectedForm(SortedIds(m.Keys), m, RefsOf(SortedIds(m.Keys)), watermark, limit, threshold);
  }

  /** Two reads of a quiet source give the same answer, whatever their page sizes. */
  lemma PageSizeIrrelevant(h: History<Membership>, h': History<Membership>, m: Membership, p: nat, p': nat,
                           watermark: nat, limit: Option<int>, threshold: int)
    requires Quiet(h, m) && SnapshotServed(h, p) && Quiet(h', m) && SnapshotServed(h', p')
    ensures SelectedPages(h, p, watermark, limit, threshold) == SelectedPages(h', p', watermark, limit, threshold)
  {
    ResolvedQuietly(h, m, p, watermark, limit, threshold);
    ResolvedQuietly(h', m, p', watermark, limit, threshold);
  }

  class Provider {
    const client: Client
    const bitmapThreshold: int

    constructor (client: Client, bitmapThreshold: int)
      ensures this.client == client && this.bitmapThreshold == bitmapThreshold
    {
      this.client, this.bitmapThreshold := client, bitmapThreshold;
    }

    ghost predicate Ready()
      reads client, client.service
    {
      client.Ready()
    }

    function PageSize(): nat {
      client.service.config.feed.pageSize
    }

    /** Fetch one more page and add it to the collection so far. */
    method NextPage(cursor: Option<nat>, collection: Collection, ghost h: History<Membership>)
      returns (r: Result<Collection, ConnectorError>, next: Option<nat>, refs: map<int, string>)
      requires Ready() && !client.service.config.bitmapSnapshot
      requires Reading(h, collection, cursor, PageSize())
      modifies client, client.service
      ensures Ready() && old(client.service.events) <= client.service.events
      ensures r.Ok? ==>
                var h' := Then(h, client.service.members);
                && SnapshotRead(h', PageSize())
                && r.value == Collection(Reassembled(h', PageSize()), ReassembledScores(h', PageSize()),
                                         |client.service.events|)
                && next == (if MoreIds(h', PageSize()) then Some(Cursor(h', PageSize())) else None)
                && refs == RefsOf(IdsAt(client.service.members, Cursor(h, PageSize()), PageSize()))
      ensures r.Err? ==> !r.error.TooManyPages?
      ensures old(client.Alone()) ==> client.Alone() && client.service.members == old(client.service.members)
      ensures old(Welcome(client)) ==> r.Ok? && Welcome(client)
    {
      if Welcome(client) {
        var unfailing := client.service.State().(failures := []);
        AcceptablePasses(unfailing, cursor, client.service.config, client.limits);
      }
      var page := client.FetchSnapshot(cursor);
      if page.Err? {
        return Err(page.error), None, map[];
      }
      ReadingNext(h, collection, cursor, client.service.State(), client.service.config);
      PageServed(client.service.State(), cursor, Cursor(h, PageSize()), client.service.config);
      return Ok(Extended(collection, page.value)), page.value.nextCursor, page.value.evidenceRefs;
    }

    /** Follow the cursors on from a first page that was served just now, then cut and encode. */
    method FollowCursors(firstIds: Collection, firstRefs: map<int, string>, firstCursor: Option<nat>,
                         limit: Option<int>, ghost first: History<Membership>)
      returns (r: Result<McpResult, ConnectorError>, ghost h: History<Membership>)
      requires Ready() && !client.service.config.bitmapSnapshot
      requires first.Then? && Pages(first) == 1 && first.at == client.service.members
      requires SnapshotRead(first, PageSize()) && Quiet(first, client.service.members)
      requires firstCursor == if MoreIds(first, PageSize()) then Some(Cursor(first, PageSize())) else None
      requires firstIds == Collection(Reassembled(first, PageSize()), ReassembledScores(first, PageSize()),
                                      |client.service.events|)
      requires firstRefs == RefsOf(firstIds.members)
      modifies client, client.service
      ensures Ready() && old(client.service.events) <= client.service.events
      ensures r.Ok? ==>
                && SnapshotServed(h, PageSize()) && h.at == client.service.members
                && r.value == SelectedPages(h, PageSize(), |client.service.events|, limit, bitmapThreshold)
      ensures r == Err(TooManyPages) ==> Pages(h) == MAX_PAGES && MoreIds(h, PageSize())
      ensures old(client.Alone()) ==>
                client.service.members == old(client.service.members) && Quiet(h, client.service.members)
      ensures old(Welcome(client)) ==> r.Ok? || r == Err(TooManyPages)
    {
      var collection, refs, cursor, pages := firstIds, firstRefs, firstCursor, 1;
      h := first;
      while cursor.Some?
        invariant old(client.service.events) <= client.service.events
        invariant Ready() && pages == Pages(h) <= MAX_PAGES && h.Then? && h.at == client.service.members
        invariant SnapshotRead(h, PageSize())
        invariant cursor == if MoreIds(h, PageSize()) then Some(Cursor(h, PageSize())) else None
        invariant collection == Collection(Reassembled(h, PageSize()), ReassembledScores(h, PageSize()),
                                           |client.service.events|)
        invariant refs == RefsOf(collection.members)
        invariant old(client.Alone()) ==>
                    && client.Alone() && client.service.members == old(client.service.members)
                    && Quiet(h, client.service.members)
        invariant old(Welcome(client)) ==> Welcome(client)
        decreases MAX_PAGES - pages
      {
        if pages >= MAX_PAGES {
          return Err(TooManyPages), h;
        }
        var page, next, pageRefs := NextPage(cursor, collection, h);
        if page.Err? {
          return Err(page.error), h;
        }
        RefsAppend(collection.members, IdsAt(client.service.members, Cursor(h, PageSize()), PageSize()));
        h := Then(h, client.service.members);
        refs := refs + pageRefs;
        collection, cursor, pages := page.value, next, pages + 1;
      }
      return Ok(Selected(collection.members, collection.scores, refs, collection.watermark, limit, bitmapThreshold)), h;
    }

    /** Follow the cursors from the first page on. */
    method IdListResult(firstPage: SnapshotPage, limit: Option<int>)
      returns (r: Result<McpResult, ConnectorError>, ghost h: History<Membership>)
      requires Ready() && !client.service.config.bitmapSnapshot
      requires firstPage == ServeSnapshot(client.service.State(), None, client.service.config)
      modifies client, client.service
      ensures Ready() && old(client.service.events) <= client.service.events
      ensures r.Ok? ==>
                && SnapshotServed(h, PageSize()) && h.at == client.service.members
                && r.value == SelectedPages(h, PageSize(), |client.service.events|, limit, bitmapThreshold)
      ensures r == Err(TooManyPages) ==> Pages(h) == MAX_PAGES && MoreIds(h, PageSize())
      ensures old(client.Alone()) ==>
                client.service.members == old(client.service.members) && Quiet(h, client.service.members)
      ensures old(Welcome(client)) ==> r.Ok? || r == Err(TooManyPages)
    {
      h := Then(Start, client.service.members);
      FirstPageRead(h, firstPage, client.service.State(), None, client.service.config);
      var collection := Collection(firstPage.entityIds.value, firstPage.scores, firstPage.watermark);
      r, h := FollowCursors(collection, firstPage.evidenceRefs, firstPage.nextCursor, limit, h);
    }

    /**
     * Resolve the current membership; a bitmap from the wire passes through uncut and undecoded. From a source
     * that no one else changes, the result is the selection from its sorted members, whatever the page size.
     */
    method Resolve(limit: Option<int>) returns (r: Result<McpResult, ConnectorError>, ghost h: History<Membership>)
      requires Ready()
      modifies client, client.service
      ensures Ready() && old(client.service.events) <= client.service.events
      ensures r.Ok? ==> client.Fresh() && !client.service.config.invalidKeyType
      ensures r.Ok? && client.service.config.bitmapSnapshot ==>
                && r.value.entityIds == None && r.value.bitmap.Some?
                && r.value.bitmap.value.decoded ==
                   (if client.service.config.malformedBitmap then None else Some(client.service.members.Keys))
                && r.value.scores == client.service.members && r.value.evidenceRefs.Keys == client.service.members.Keys
                && (forall x :: x in client.service.members ==> r.value.evidenceRefs[x] == EvidenceRef(x))
                && r.value.watermark == |client.service.events|
      ensures r.Ok? && !client.service.config.bitmapSnapshot ==>
                && SnapshotServed(h, PageSize()) && h.at == client.service.members
                && r.value == SelectedPages(h, PageSize(), |client.service.events|, limit, bitmapThreshold)
      ensures old(client.Alone()) ==>
                client.service.members == old(client.service.members) && Quiet(h, client.service.members)
      ensures old(client.Alone()) && r.Ok? && !client.service.config.bitmapSnapshot ==>
                r.value == OfMembers(client.service.members, |client.service.events|, limit, bitmapThreshold)
      ensures old(Welcome(client)) ==> r.Ok? || Overfull(client.service.members, client.service.config.feed)
    {
      h := Start;
      if Welcome(client) {
        var unfailing := client.service.State().(failures := []);
        AcceptablePasses(unfailing, None, client.service.config, client.limits);
      }
      var firstPage := client.FetchSnapshot(None);
      if firstPage.Err? {
        return Err(firstPage.error), h;
      }
      var page := firstPage.value;
      if page.bitmap.Some? {
        return Ok(McpResult(None, page.bitmap, page.scores, page.evidenceRefs, page.watermark)), h;
      }
      r, h := IdListResult(page, limit);
      if r.Ok? {
        ResolvedQuietly(h, client.service.members, PageSize(), |client.service.events|, limit, bitmapThreshold);
      } else if r.error.TooManyPages? {
        CursorIsProduct(h, PageSize());
      }
    }
  }
}
