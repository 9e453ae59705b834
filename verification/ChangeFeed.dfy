/** The paged change feed: what a reader collects while the source keeps appending. */
module ChangeFeed {
  import opened Outcomes
  import opened ChangeLog
  import opened Paging

  datatype FeedOptions = FeedOptions(pageSize: nat, outOfOrder: bool, duplicate: bool, redeliver: bool)

  datatype ChangeBatch = ChangeBatch(events: seq<Event>, nextCursor: Option<nat>)

  function After(log: seq<Event>, since: nat): seq<Event> {
    if log == [] then []
    else
      var before := After(log[..|log| - 1], since);
      if log[|log| - 1].watermark > since then before + [log[|log| - 1]] else before
  }

  function Reversed<T>(s: seq<T>): (r: seq<T>) {
    seq(|s|, i requires 0 <= i < |s| => s[|s| - 1 - i])
  }

  function Doubled<T>(s: seq<T>): (r: seq<T>) {
    seq(2 * |s|, i requires 0 <= i < 2 * |s| => s[i / 2])
  }

  function Selected(log: seq<Event>, since: nat, o: FeedOptions): seq<Event> {
    if o.redeliver then log else After(log, since)
  }

  function Arranged(selected: seq<Event>, o: FeedOptions): seq<Event> {
    var ordered := if o.outOfOrder then Reversed(selected) else selected;
    if o.duplicate then Doubled(ordered) else ordered
  }

  /** The events that the feed has to deliver, in delivery order. */
  function Pending(log: seq<Event>, since: nat, o: FeedOptions): seq<Event> {
    Arranged(Selected(log, since, o), o)
  }

  function ServeChanges(log: seq<Event>, since: nat, cursor: Option<nat>, o: FeedOptions): ChangeBatch {
    var pending := Pending(log, since, o);
    var offset := if cursor.Some? then cursor.value else 0;
    ChangeBatch(
      Slice(pending, offset, offset + o.pageSize),
      if offset + o.pageSize < |pending| then Some(offset + o.pageSize) else None)
  }

  // ---- A whole fetch: each page is served from the log as it was then ---------------------

  function Collected(h: History<seq<Event>>, since: nat, o: FeedOptions): seq<Event> {
    match h
    case Start => []
    case Then(before, log) =>
      var offset := Cursor(before, o.pageSize);
      Collected(before, since, o) + Slice(Pending(log, since, o), offset, offset + o.pageSize)
  }

  /** Between two pages the source may append, and never rewrites; every page but the last had a next cursor. */
  ghost predicate Served(h: History<seq<Event>>, since: nat, o: FeedOptions) {
    match h
    case Start => false
    case Then(before, log) =>
      before.Start? || (Served(before, since, o) && before.at <= log && HasMore(before, since, o))
  }

  predicate HasMore(h: History<seq<Event>>, since: nat, o: FeedOptions)
    requires h.Then?
  {
    Cursor(h, o.pageSize) < |Pending(h.at, since, o)|
  }

  ghost predicate FullyServed(h: History<seq<Event>>, since: nat, o: FeedOptions) {
    Served(h, since, o) && !HasMore(h, since, o)
  }

  lemma {:induction false} FirstIsPrefix(h: History<seq<Event>>, since: nat, o: FeedOptions)
    requires Served(h, since, o)
    ensures First(h) <= h.at
  {
    if h.before.Then? {
      FirstIsPrefix(h.before, since, o);
    }
  }

  // ---- How pending lists grow ------------------------------------------------------------

  lemma {:induction false} AfterAppend(a: seq<Event>, b: seq<Event>, since: nat)
    ensures After(a + b, since) == After(a, since) + After(b, since)
  {
    if b == [] {
      assert a + b == a;
    } else {
      assert (a + b)[..|a + b| - 1] == a + b[..|b| - 1];
      AfterAppend(a, b[..|b| - 1], since);
    }
  }

  /** On a numbered log the feed's filter is a suffix. */
  lemma {:induction false} AfterNumbered(log: seq<Event>, since: nat)
    requires Numbered(log)
    ensures After(log, since) == if since <= |log| then log[since..] else []
  {
    if log != [] {
      var init, last := log[..|log| - 1], log[|log| - 1];
      AfterNumbered(init, since);
      if since <= |init| {
        assert log[since..] == init[since..] + [last];
      } else if since == |log| {
        assert log[since..] == [];
      }
    }
  }

  lemma DoubledAppend<T>(a: seq<T>, b: seq<T>)
    ensures Doubled(a + b) == Doubled(a) + Doubled(b)
  {}

  lemma ReversedAppend<T>(a: seq<T>, b: seq<T>)
    ensures Reversed(a + b) == Reversed(b) + Reversed(a)
  {}

  lemma ArrangedAppend(a: seq<Event>, b: seq<Event>, o: FeedOptions)
    ensures Arranged(a + b, o) ==
            if o.outOfOrder then Arranged(b, o) + Arranged(a, o) else Arranged(a, o) + Arranged(b, o)
  {
    if o.outOfOrder {
      ReversedAppend(a, b);
      DoubledAppend(Reversed(b), Reversed(a));
    } else {
      DoubledAppend(a, b);
    }
  }

  /** New events join a forward feed at its end, and a reversed feed at its front. */
  lemma PendingGrows(log: seq<Event>, log': seq<Event>, since: nat, o: FeedOptions) returns (extra: seq<Event>)
    requires log <= log'
    ensures Pending(log', since, o) ==
            if o.outOfOrder then extra + Pending(log, since, o) else Pending(log, since, o) + extra
  {
    var more := log'[|log|..];
    assert log' == log + more;
    AfterAppend(log, more, since);
    ArrangedAppend(Selected(log, since, o), Selected(more, since, o), o);
    extra := Arranged(Selected(more, since, o), o);
  }

  // ---- What has been collected -----------------------------------------------------------

  predicate OccursFrom(e: Event, q: seq<Event>, s: nat) {
    exists r :: s <= r < |q| && q[r] == e
  }

  /** `got` holds everything of `q` from `s` up to the cursor, and nothing of `q` before `s`. */
  ghost predicate Covers(got: seq<Event>, q: seq<Event>, s: nat, cursor: nat) {
    && s <= cursor && s <= |q|
    && (forall r :: s <= r < cursor && r < |q| ==> q[r] in got)
    && (forall e :: e in got ==> OccursFrom(e, q, s))
  }

  lemma CoversPage(got: seq<Event>, q: seq<Event>, s: nat, cursor: nat, pageSize: nat)
    requires Covers(got, q, s, cursor)
    ensures Covers(got + Slice(q, cursor, cursor + pageSize), q, s, cursor + pageSize)
  {}

  lemma CoversAppend(got: seq<Event>, q: seq<Event>, cursor: nat, extra: seq<Event>)
    requires Covers(got, q, 0, cursor) && cursor <= |q|
    ensures Covers(got, q + extra, 0, cursor)
  {
    forall e | e in got ensures OccursFrom(e, q + extra, 0) {
      var r :| 0 <= r < |q| && q[r] == e;
      assert (q + extra)[r] == e;
    }
  }

  lemma CoversPrepend(got: seq<Event>, q: seq<Event>, s: nat, cursor: nat, extra: seq<Event>)
    requires Covers(got, q, s, cursor) && cursor <= |q|
    ensures Covers(got, extra + q, Min(s + |extra|, cursor), cursor)
  {
    var q', s' := extra + q, Min(s + |extra|, cursor);
    forall e | e in got ensures OccursFrom(e, q', s') {
      var r :| s <= r < |q| && q[r] == e;
      assert q'[r + |extra|] == e;
    }
    forall r | s' <= r < cursor && r < |q'| ensures q'[r] in got {
      assert q'[r] == q[r - |extra|];
    }
  }

  /** One more page, after the pending list has grown from `q0` to `q`. */
  lemma CoversNext(got: seq<Event>, q0: seq<Event>, q: seq<Event>, s0: nat, cursor: nat, pageSize: nat,
                   extra: seq<Event>, reversed: bool, got': seq<Event>, cursor': nat) returns (s: nat)
    requires Covers(got, q0, s0, cursor) && cursor <= |q0|
    requires if reversed then q == extra + q0 else q == q0 + extra && s0 == 0
    requires cursor' == cursor + pageSize && got' == got + Slice(q, cursor, cursor')
    ensures Covers(got', q, s, cursor')
    ensures |q0| - s0 <= |q| - s
    ensures !reversed ==> s == 0
  {
    if reversed {
      CoversPrepend(got, q0, s0, cursor, extra);
      s := Min(s0 + |extra|, cursor);
    } else {
      CoversAppend(got, q0, cursor, extra);
      s := 0;
    }
    CoversPage(got, q, s, cursor, pageSize);
  }

  /** Some `s` describes the pages served so far: see `PagesCover`. */
  ghost predicate CoveredFrom(h: History<seq<Event>>, since: nat, o: FeedOptions, s: nat)
    requires h.Then?
  {
    && Covers(Collected(h, since, o), Pending(h.at, since, o), s, Cursor(h, o.pageSize))
    && |Pending(First(h), since, o)| <= |Pending(h.at, since, o)| - s
    && (!o.outOfOrder ==> s == 0)
  }

  /**
   * The paging invariant: the events not collected behind the cursor are those before some `s`, and at
   * least as many are covered or still to come as were pending when the first page was served.
   */
  lemma {:induction false} PagesCover(h: History<seq<Event>>, since: nat, o: FeedOptions) returns (s: nat)
    requires Served(h, since, o)
    ensures CoveredFrom(h, since, o, s)
  {
    var before, q := h.before, Pending(h.at, since, o);
    var got, cursor := Collected(before, since, o), Cursor(before, o.pageSize);
    if before.Start? {
      s := 0;
      CoversPage(got, q, s, cursor, o.pageSize);
    } else {
      var s0 := PagesCover(before, since, o);
      var extra := PendingGrows(before.at, h.at, since, o);
      s := CoversNext(got, Pending(before.at, since, o), q, s0, cursor, o.pageSize, extra, o.outOfOrder,
                      Collected(h, since, o), Cursor(h, o.pageSize));
    }
  }

  /** Where the event at position `i` of an arranged list comes from. */
  function Origin(i: nat, n: nat, o: FeedOptions): int {
    var r := if o.duplicate then i / 2 else i;
    if o.outOfOrder then n - 1 - r else r
  }

  lemma ArrangedAt(sel: seq<Event>, o: FeedOptions)
    ensures |Arranged(sel, o)| == if o.duplicate then 2 * |sel| else |sel|
    ensures forall i :: 0 <= i < |Arranged(sel, o)| ==>
              0 <= Origin(i, |sel|, o) < |sel| && Arranged(sel, o)[i] == sel[Origin(i, |sel|, o)]
  {}

  /** How many deliveries `n` events make. */
  function Copied(n: nat, o: FeedOptions): nat {
    if o.duplicate then 2 * n else n
  }

  lemma ArrangedOne(sel: seq<Event>, o: FeedOptions, i: nat, r: nat)
    requires r == if o.duplicate then i / 2 else i
    ensures |Arranged(sel, o)| == Copied(|sel|, o)
    ensures i < Copied(|sel|, o) ==>
              r < |sel| && Arranged(sel, o)[i] == sel[if o.outOfOrder then |sel| - 1 - r else r]
  {}

  lemma SelectedSlice(log: seq<Event>, since: nat, o: FeedOptions, lo: nat)
    requires Numbered(log) && since <= |log| && lo == if o.redeliver then 0 else since
    ensures Selected(log, since, o) == log[lo..]
  {
    AfterNumbered(log, since);
  }

  /** The feed position by position: the events past `lo`, newest first if reversed, and each twice if doubled. */
  lemma PendingAt(log: seq<Event>, since: nat, o: FeedOptions, lo: nat, i: nat, r: nat)
    requires Numbered(log) && since <= |log| && lo == if o.redeliver then 0 else since
    requires r == if o.duplicate then i / 2 else i
    ensures |Pending(log, since, o)| == Copied(|log| - lo, o)
    ensures i < Copied(|log| - lo, o) ==>
              r < |log| - lo && Pending(log, since, o)[i] == log[if o.outOfOrder then |log| - 1 - r else lo + r]
  {
    SelectedSlice(log, since, o, lo);
    ArrangedOne(log[lo..], o, i, r);
  }

  lemma JoinsOn(got: seq<Event>, pending: seq<Event>, offset: nat, pageSize: nat)
    requires got == Slice(pending, 0, offset)
    ensures got + Slice(pending, offset, offset + pageSize) == Slice(pending, 0, offset + pageSize)
  {
    SlicesJoin(pending, 0, offset, offset + pageSize);
  }

  /** If nothing was appended meanwhile, the pages add up to the whole feed, in its order. */
  lemma {:induction false} QuietFeed(h: History<seq<Event>>, since: nat, o: FeedOptions)
    requires Served(h, since, o) && First(h) == h.at
    ensures Collected(h, since, o) == Slice(Pending(h.at, since, o), 0, Cursor(h, o.pageSize))
  {
    if h.before.Then? {
      FirstIsPrefix(h.before, since, o);
      QuietFeed(h.before, since, o);
    }
    JoinsOn(Collected(h.before, since, o), Pending(h.at, since, o), Cursor(h.before, o.pageSize), o.pageSize);
  }

  /** The oldest `c` selected events are what an arranged list holds from `s` on. */
  lemma SuffixOfArranged(sel: seq<Event>, o: FeedOptions, s: nat) returns (c: nat)
    requires s <= |Arranged(sel, o)|
    requires !o.outOfOrder ==> s == 0
    ensures c <= |sel|
    ensures forall e :: OccursFrom(e, Arranged(sel, o), s) <==> e in sel[..c]
    ensures if o.duplicate then 2 * c >= |Arranged(sel, o)| - s else c >= |Arranged(sel, o)| - s
  {
    ArrangedAt(sel, o);
    var q := Arranged(sel, o);
    c := |sel| - if o.duplicate then s / 2 else s;
    forall e | OccursFrom(e, q, s) ensures e in sel[..c] {
      var i :| s <= i < |q| && q[i] == e;
      assert e == sel[..c][Origin(i, |sel|, o)];
    }
    forall e | e in sel[..c] ensures OccursFrom(e, q, s) {
      var j :| 0 <= j < c && sel[j] == e;
      var i := Position(j, |sel|, o);
      assert s <= i && q[i] == e;
    }
  }

  /** The last position of an arranged list that comes from `j`. */
  function Position(j: nat, n: nat, o: FeedOptions): (i: nat)
    requires j < n
    ensures Origin(i, n, o) == j
    ensures i < if o.duplicate then 2 * n else n
  {
    var r := if o.outOfOrder then n - 1 - j else j;
    if o.duplicate then 2 * r + 1 else r
  }

  /**
   * No gap under concurrent appends. For forward or reversed order, doubled or not, redelivered or not, and
   * any page size, the collected events above the boundary are exactly those of a log prefix `m` that
   * includes every event present when the first page was served.
   */
  lemma NoGap(h: History<seq<Event>>, since: nat, o: FeedOptions) returns (m: nat)
    requires FullyServed(h, since, o)
    requires Numbered(h.at) && since <= |First(h)|
    ensures |First(h)| <= m <= |h.at|
    ensures forall e: Event :: since < e.watermark ==> (e in Collected(h, since, o) <==> e in h.at[..m])
    ensures forall e :: e in Collected(h, since, o) ==> e in h.at
  {
    var first, last := First(h), h.at;
    var s := PagesCover(h, since, o);
    var q, got := Pending(last, since, o), Collected(h, since, o);
    assert forall e :: e in got <==> OccursFrom(e, q, s);
    var c := SuffixOfArranged(Selected(last, since, o), o, s);
    FirstIsPrefix(h, since, o);
    NumberedPrefix(first, last);
    AfterNumbered(last, since);
    AfterNumbered(first, since);
    ArrangedAt(Selected(first, since, o), o);
    m := if o.redeliver then c else since + c;
    CollectedPrefix(last, since, o.redeliver, c, m, Selected(last, since, o));
  }

  lemma CollectedPrefix(last: seq<Event>, since: nat, redeliver: bool, c: nat, m: nat, sel: seq<Event>)
    requires Numbered(last) && since <= |last|
    requires sel == if redeliver then last else last[since..]
    requires c <= |sel| && m == if redeliver then c else since + c
    ensures forall e: Event :: since < e.watermark ==> (e in sel[..c] <==> e in last[..m])
    ensures forall e :: e in sel[..c] ==> e in last
  {}
}
