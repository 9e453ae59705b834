/** The paged membership snapshot, and what a reader reassembles from its pages. */
module SnapshotPaging {
  import opened ChangeLog
  import opened Paging

  lemma {:induction false} LeastMember(s: set<int>) returns (m: int)
    requires s != {}
    ensures m in s && forall y :: y in s ==> m <= y
  {
    assert (forall y :: y !in s) ==> s == {};
    var x :| x in s;
    if s == {x} {
      m := x;
    } else {
      var y := LeastMember(s - {x});
      m := if x <= y then x else y;
      assert forall z :: z in s ==> z == x || z in s - {x};
    }
  }

  lemma LeastExists(s: set<int>)
    requires s != {}
    ensures exists m :: m in s && forall y :: y in s ==> m <= y
  {
    var _ := LeastMember(s);
  }

  ghost predicate StrictlyAscending(ids: seq<int>) {
    forall i, j :: 0 <= i < j < |ids| ==> ids[i] < ids[j]
  }

  ghost predicate Lists(ids: seq<int>, s: set<int>) {
    StrictlyAscending(ids) && (forall x :: x in ids <==> x in s) && |ids| == |s|
  }

  lemma ListsMore(m: int, ids: seq<int>, s: set<int>)
    requires m in s && (forall y :: y in s ==> m <= y)
    requires Lists(ids, s - {m})
    ensures Lists([m] + ids, s)
  {
    var all := [m] + ids;
    forall x ensures x in all <==> x in s {
      assert x in all <==> x == m || x in ids;
    }
    forall i, j | 0 <= i < j < |all| ensures all[i] < all[j] {
      assert all[j] == ids[j - 1] && ids[j - 1] in ids;
    }
  }

  /** The members in ascending order: see `SortedIdsList`. */
  function SortedIds(s: set<int>): seq<int> {
    if s == {} then []
    else
      LeastExists(s);
      var m :| m in s && forall y :: y in s ==> m <= y;
      [m] + SortedIds(s - {m})
  }

  lemma {:induction false} SortedIdsList(s: set<int>)
    ensures Lists(SortedIds(s), s)
  {
    if s != {} {
      LeastExists(s);
      var m :| m in s && forall y :: y in s ==> m <= y;
      SortedIdsList(s - {m});
      ListsMore(m, SortedIds(s - {m}), s);
    }
  }

  /** A set has only one ascending list. */
  lemma {:induction false} ListsUnique(a: seq<int>, b: seq<int>, s: set<int>)
    requires Lists(a, s) && Lists(b, s)
    ensures a == b
  {
    if a != [] {
      assert a[0] in b && b[0] in a;
      ListsTail(a, s);
      ListsTail(b, s);
      ListsUnique(a[1..], b[1..], s - {a[0]});
      assert a == [a[0]] + a[1..] && b == [b[0]] + b[1..];
    }
  }

  lemma ListsTail(a: seq<int>, s: set<int>)
    requires Lists(a, s) && a != []
    ensures Lists(a[1..], s - {a[0]})
  {
    assert forall x :: x in a[1..] <==> x in a && x != a[0];
  }

  /** Without one member the list closes the gap. */
  lemma ListWithout(ids: seq<int>, s: set<int>, i: nat)
    requires Lists(ids, s) && i < |ids|
    ensures Lists(ids[..i] + ids[i + 1..], s - {ids[i]})
  {
    var rest := ids[..i] + ids[i + 1..];
    forall x ensures x in rest <==> x in s - {ids[i]} {
      if x in s - {ids[i]} {
        var j :| 0 <= j < |ids| && ids[j] == x;
        assert rest[if j < i then j else j - 1] == x;
      }
    }
  }

  lemma SortedIdsSize(m: Membership)
    ensures |SortedIds(m.Keys)| == |m|
  {
    SortedIdsList(m.Keys);
    assert |m.Keys| == |m|;
  }

  /** The page at an offset of the members as they are now. */
  function IdsAt(m: Membership, offset: nat, pageSize: nat): seq<int> {
    Slice(SortedIds(m.Keys), offset, offset + pageSize)
  }

  function ScoresOf(m: Membership, ids: seq<int>): map<int, real> {
    map x | x in ids && x in m :: m[x]
  }

  /** The concatenated pages, each served from the membership of its time. */
  function Reassembled(h: History<Membership>, pageSize: nat): seq<int> {
    match h
    case Start => []
    case Then(before, m) => Reassembled(before, pageSize) + IdsAt(m, Cursor(before, pageSize), pageSize)
  }

  /** The scores that come with those pages, later pages overriding earlier ones. */
  function ReassembledScores(h: History<Membership>, pageSize: nat): map<int, real> {
    match h
    case Start => map[]
    case Then(before, m) =>
      ReassembledScores(before, pageSize) + ScoresOf(m, IdsAt(m, Cursor(before, pageSize), pageSize))
  }

  predicate MoreIds(h: History<Membership>, pageSize: nat)
    requires h.Then?
  {
    Cursor(h, pageSize) < |h.at|
  }

  /** Every page but the last carried a next cursor. */
  predicate SnapshotRead(h: History<Membership>, pageSize: nat) {
    match h
    case Start => false
    case Then(before, _) => before.Start? || (SnapshotRead(before, pageSize) && MoreIds(before, pageSize))
  }

  predicate SnapshotServed(h: History<Membership>, pageSize: nat) {
    SnapshotRead(h, pageSize) && !MoreIds(h, pageSize)
  }

  predicate Quiet(h: History<Membership>, m: Membership) {
    h.Then? ==> h.at == m && Quiet(h.before, m)
  }

  lemma {:induction false} QuietPrefix(h: History<Membership>, m: Membership, pageSize: nat)
    requires Quiet(h, m)
    ensures Reassembled(h, pageSize) == SortedIds(m.Keys)[..Min(Cursor(h, pageSize), |SortedIds(m.Keys)|)]
  {
    if h.Then? {
      QuietPrefix(h.before, m, pageSize);
      PrefixAndSlice(SortedIds(m.Keys), Cursor(h.before, pageSize), pageSize);
    }
  }

  /** `scores` is `m` restricted to `ids`. */
  ghost predicate Restricts(scores: map<int, real>, m: Membership, ids: seq<int>) {
    && (forall x :: x in scores <==> x in ids)
    && (forall x :: x in scores ==> x in m && scores[x] == m[x])
  }

  lemma PageRestricts(before: map<int, real>, m: Membership, ids: seq<int>, page: seq<int>)
    requires Restricts(before, m, ids)
    requires forall x :: x in page ==> x in m
    ensures Restricts(before + ScoresOf(m, page), m, ids + page)
  {}

  lemma {:induction false} QuietScores(h: History<Membership>, m: Membership, pageSize: nat)
    requires Quiet(h, m)
    ensures Restricts(ReassembledScores(h, pageSize), m, Reassembled(h, pageSize))
  {
    if h.Then? {
      QuietScores(h.before, m, pageSize);
      var page := IdsAt(m, Cursor(h.before, pageSize), pageSize);
      SortedIdsList(m.Keys);
      assert forall x :: x in page ==> x in SortedIds(m.Keys);
      PageRestricts(ReassembledScores(h.before, pageSize), m, Reassembled(h.before, pageSize), page);
    }
  }

  /** From a quiet source, following the cursors yields every member exactly once, in order, with its score. */
  lemma QuietReassembly(h: History<Membership>, m: Membership, pageSize: nat)
    requires Quiet(h, m) && SnapshotServed(h, pageSize)
    ensures Lists(Reassembled(h, pageSize), m.Keys)
    ensures Reassembled(h, pageSize) == SortedIds(m.Keys)
    ensures ReassembledScores(h, pageSize) == m
  {
    QuietPrefix(h, m, pageSize);
    SortedIdsSize(m);
    var ids := SortedIds(m.Keys);
    assert Reassembled(h, pageSize) == ids;
    SortedIdsList(m.Keys);
    QuietScores(h, m, pageSize);
    RestrictsAll(ReassembledScores(h, pageSize), m, ids);
  }

  lemma RestrictsAll(scores: map<int, real>, m: Membership, ids: seq<int>)
    requires Restricts(scores, m, ids)
    requires forall x :: x in m ==> x in ids
    ensures scores == m
  {
    assert forall x :: x in m <==> x in scores;
    assert scores.Keys == m.Keys;
    assert forall x :: x in m ==> m[x] == scores[x];
  }

  /** The number of pages is max(1, ceil(n / p)): the least count, at least one, that covers the members. */
  lemma QuietPageCount(h: History<Membership>, m: Membership, pageSize: nat)
    requires Quiet(h, m) && SnapshotServed(h, pageSize)
    ensures Pages(h) * pageSize >= |m|
    ensures Pages(h) == 1 || (Pages(h) > 1 && (Pages(h) - 1) * pageSize < |m|)
  {
    CursorIsProduct(h, pageSize);
    CursorIsProduct(h.before, pageSize);
  }
}
