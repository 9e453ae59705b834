/** The membership history: which of the events that promotions offer are stored, and which of those survive. */
module MembershipHistory {
  import opened Outcomes
  import opened SnapshotTables
  import opened SnapshotHydration

  /** One event as a promotion offers it: for a context and a version of its snapshot. */
  datatype Offer = Offer(context: ContextId, version: nat, change: MembershipChange)

  function OffersOf(p: Promotion): seq<Offer> {
    seq(|p.events|, i requires 0 <= i < |p.events| => Offer(p.entry.contextId, p.snapshot.version, p.events[i]))
  }

  /** Everything offered, in order. */
  function Offers(ps: seq<Promotion>): seq<Offer> {
    if ps == [] then [] else Offers(ps[..|ps| - 1]) + OffersOf(ps[|ps| - 1])
  }

  /** The history takes two offers for one event: same context, snapshot version, entity and kind of change. */
  predicate SameEvent(a: Offer, b: Offer) {
    && a.context == b.context && a.version == b.version
    && a.change.entity == b.change.entity && a.change.kind == b.change.kind
  }

  predicate ShowsOffer(row: HistoryRow, o: Offer) {
    row.contextId == o.context && row.change == o.change
  }

  lemma KeyExact(p: Promotion, e: MembershipChange, p': Promotion, e': MembershipChange)
    ensures EventKeyOf(p, e) == EventKeyOf(p', e') <==>
            SameEvent(Offer(p.entry.contextId, p.snapshot.version, e),
                      Offer(p'.entry.contextId, p'.snapshot.version, e'))
  {}

  /** The rows that promotions offer are their events, and two have one key exactly when they are the same event. */
  ghost predicate RowsAreOffers(rows: seq<HistoryRow>, offers: seq<Offer>) {
    && |rows| == |offers|
    && (forall k :: 0 <= k < |rows| ==> ShowsOffer(rows[k], offers[k]))
    && (forall j, k :: 0 <= j < k < |rows| ==> (rows[j].key == rows[k].key <==> SameEvent(offers[j], offers[k])))
  }

  /** The promotion and the event that an offer comes from. */
  ghost predicate ComesFrom(row: HistoryRow, offer: Offer, p: Promotion, e: MembershipChange) {
    && row == HistoryRow(p.entry.contextId, EventKeyOf(p, e), e)
    && offer == Offer(p.entry.contextId, p.snapshot.version, e)
  }

  lemma {:induction false} OfferedFrom(ps: seq<Promotion>, k: nat) returns (p: Promotion, e: MembershipChange)
    requires k < |Offers(ps)|
    ensures |Offered(ps)| == |Offers(ps)| && ComesFrom(Offered(ps)[k], Offers(ps)[k], p, e)
  {
    var init, last := ps[..|ps| - 1], ps[|ps| - 1];
    if k < |Offers(init)| {
      p, e := OfferedFrom(init, k);
    } else {
      OfferedSize(init);
      p, e := last, last.events[k - |Offers(init)|];
    }
  }

  lemma {:induction false} OfferedSize(ps: seq<Promotion>)
    ensures |Offered(ps)| == |Offers(ps)|
  {
    if ps != [] {
      OfferedSize(ps[..|ps| - 1]);
    }
  }

  lemma OfferedRows(ps: seq<Promotion>)
    ensures RowsAreOffers(Offered(ps), Offers(ps))
  {
    var rows, offers := Offered(ps), Offers(ps);
    OfferedSize(ps);
    forall k | 0 <= k < |rows| ensures ShowsOffer(rows[k], offers[k]) {
      var p, e := OfferedFrom(ps, k);
    }
    forall j, k | 0 <= j < k < |rows| ensures rows[j].key == rows[k].key <==> SameEvent(offers[j], offers[k]) {
      var p, e := OfferedFrom(ps, j);
      var p', e' := OfferedFrom(ps, k);
      KeyExact(p, e, p', e');
    }
  }

  /** Which rows share their key with no earlier row. */
  ghost function NewKeys(rows: seq<HistoryRow>): seq<bool> {
    seq(|rows|, k requires 0 <= k < |rows| => forall j :: 0 <= j < k ==> rows[j].key != rows[k].key)
  }

  lemma {:induction false} FirstsMarked(rows: seq<HistoryRow>)
    ensures FirstOfEach(rows) == Marked(rows, NewKeys(rows))
  {
    if rows != [] {
      var init, row := rows[..|rows| - 1], rows[|rows| - 1];
      var stored := FirstOfEach(init);
      FirstsMarked(init);
      NewKeysNext(init, row, stored, rows);
      MarkedNext(init, NewKeys(init), row, !Recorded(stored, row.key), rows, NewKeys(rows));
    }
  }

  lemma {:induction false} StoredAmong(rows: seq<HistoryRow>)
    ensures forall i :: 0 <= i < |FirstOfEach(rows)| ==> FirstOfEach(rows)[i] in rows
  {
    if rows != [] {
      StoredAmong(rows[..|rows| - 1]);
      assert rows == rows[..|rows| - 1] + [rows[|rows| - 1]];
    }
  }

  lemma NewKeysNext(rows: seq<HistoryRow>, row: HistoryRow, stored: seq<HistoryRow>, all: seq<HistoryRow>)
    requires stored == FirstOfEach(rows) && all == rows + [row]
    ensures NewKeys(all) == NewKeys(rows) + [!Recorded(stored, row.key)]
  {
    var n := |rows|;
    FirstOfEachDistinct(rows);
    StoredAmong(rows);
    forall k | 0 <= k < n ensures NewKeys(all)[k] == NewKeys(rows)[k] {
      assert forall j :: 0 <= j < k ==> all[j] == rows[j];
    }
    if Recorded(stored, row.key) {
      var i :| 0 <= i < |stored| && stored[i].key == row.key;
      var j :| 0 <= j < n && rows[j] == stored[i];
      assert all[j].key == all[n].key;
    } else {
      forall j | 0 <= j < n ensures all[j].key != row.key {
        assert Recorded(stored, rows[j].key);
      }
    }
  }

  /** No earlier offer is the same event. */
  ghost predicate FirstOffer(offers: seq<Offer>, k: nat)
    requires k < |offers|
  {
    forall j :: 0 <= j < k ==> !SameEvent(offers[j], offers[k])
  }

  /** Which offers are the first of their event. */
  ghost function Firsts(offers: seq<Offer>): seq<bool> {
    seq(|offers|, k requires 0 <= k < |offers| => FirstOffer(offers, k))
  }

  /** The rows show these offers, in order. */
  ghost predicate Shows(history: seq<HistoryRow>, offers: seq<Offer>) {
    |history| == |offers| && forall k :: 0 <= k < |offers| ==> ShowsOffer(history[k], offers[k])
  }

  lemma SameFirsts(rows: seq<HistoryRow>, offers: seq<Offer>)
    requires RowsAreOffers(rows, offers)
    ensures NewKeys(rows) == Firsts(offers)
  {
    forall k: nat | k < |rows| ensures NewKeys(rows)[k] == FirstOffer(offers, k) {
      assert forall j :: 0 <= j < k ==> (rows[j].key == rows[k].key <==> SameEvent(offers[j], offers[k]));
    }
  }

  /** The history is what was offered, in order, less what was offered before for the same event. */
  lemma HistoryExact(t: Tables, ps: seq<Promotion>, codec: Codec)
    requires t.history == []
    ensures Shows(PromoteAll(t, ps, codec).history, Marked(Offers(ps), Firsts(Offers(ps))))
  {
    HistoryStored(t, ps, codec);
    FirstsMarked(Offered(ps));
    OfferedRows(ps);
    SameFirsts(Offered(ps), Offers(ps));
  }

  /** No promotion repeats an entity with the same kind of change. */
  predicate NoRepeats(ps: seq<Promotion>) {
    forall n :: 0 <= n < |ps| ==> NoRepeat(ps[n].events)
  }

  predicate NoRepeat(events: seq<MembershipChange>) {
    forall i, j :: 0 <= i < j < |events| ==> events[i].entity != events[j].entity || events[i].kind != events[j].kind
  }

  lemma {:induction false} OfferVersions(ps: seq<Promotion>)
    requires Contiguous(ps)
    ensures forall k :: 0 <= k < |Offers(ps)| ==> Offers(ps)[k].version <= |Of(ps, Offers(ps)[k].context)|
  {
    if ps != [] {
      OfferVersions(ps[..|ps| - 1]);
    }
  }

  lemma {:induction false} OffersDistinct(ps: seq<Promotion>, k: nat)
    requires Contiguous(ps) && NoRepeats(ps) && k < |Offers(ps)|
    ensures FirstOffer(Offers(ps), k)
  {
    var init, p := ps[..|ps| - 1], ps[|ps| - 1];
    var before := Offers(init);
    OfferVersions(init);
    assert NoRepeat(p.events);
    if k < |before| {
      assert forall n :: 0 <= n < |init| ==> init[n] == ps[n];
      OffersDistinct(init, k);
      assert forall j :: 0 <= j < k ==> Offers(ps)[j] == before[j];
    } else {
      forall j | 0 <= j < k ensures !SameEvent(Offers(ps)[j], Offers(ps)[k]) {
        if j < |before| {
          assert Offers(ps)[j] == before[j];
        }
      }
    }
  }

  /** With versions counting from one and no repetition within a promotion, no event is lost. */
  lemma NoEventLost(t: Tables, ps: seq<Promotion>, codec: Codec)
    requires t.history == [] && Contiguous(ps) && NoRepeats(ps)
    ensures Shows(PromoteAll(t, ps, codec).history, Offers(ps))
  {
    var offers := Offers(ps);
    HistoryExact(t, ps, codec);
    forall k: nat | k < |offers| ensures Firsts(offers)[k] {
      OffersDistinct(ps, k);
    }
    AllMarked(offers, Firsts(offers));
  }
}
