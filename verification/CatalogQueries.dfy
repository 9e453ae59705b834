/**
 * The context definitions: versioned rows written by save, drop and backfill, and the three queries that look
 * for the latest version of a context. When do the queries agree?
 */
module CatalogQueries {
  import opened Outcomes

  type Name = (string, string)

  /** The other columns that a save writes, by name. */
  type Columns = map<string, Option<string>>

  datatype ContextRow = ContextRow(
    name: Name,
    version: int,
    contextId: Option<string>,
    definitionText: string,
    definitionHash: Option<string>,
    state: string,
    rawDdl: Option<string>,
    columns: Columns,
    dropped: bool)

  type Rows = map<nat, ContextRow>

  datatype Entry = Entry(
    name: Name,
    version: int,
    contextId: string,
    definitionText: string,
    definitionHash: string,
    state: string,
    columns: Columns)

  /** The two unique indexes: name and version, and context id and version where there is an id. */
  ghost predicate Constrained(rows: Rows) {
    forall i, j :: i in rows && j in rows && i != j && rows[i].version == rows[j].version ==>
                     && rows[i].name != rows[j].name
                     && (rows[i].contextId == None || rows[i].contextId != rows[j].contextId)
  }

  // ---- The queries -----------------------------------------------------------------------

  predicate Live(rows: Rows, i: nat) {
    i in rows && !rows[i].dropped
  }

  /** Live rows of one name, in one namespace and in one state when those are asked for. */
  predicate Matches(rows: Rows, i: nat, name: Name, namespace: Option<string>, state: Option<string>) {
    && Live(rows, i) && rows[i].name == name
    && (namespace == None || namespace.value == rows[i].name.1)
    && (state == None || state.value == rows[i].state)
  }

  predicate OfId(rows: Rows, i: nat, id: Option<string>) {
    Live(rows, i) && id.Some? && rows[i].contextId == id
  }

  /** `version` is the greatest among the matching rows of the name. */
  ghost predicate IsMaxOfName(rows: Rows, name: Name, namespace: Option<string>, state: Option<string>, version: int) {
    && (exists j :: Matches(rows, j, name, namespace, state) && rows[j].version == version)
    && (forall j :: Matches(rows, j, name, namespace, state) ==> rows[j].version <= version)
  }

  ghost predicate IsMaxOfId(rows: Rows, id: Option<string>, version: int) {
    && (exists j :: OfId(rows, j, id) && rows[j].version == version)
    && (forall j :: OfId(rows, j, id) ==> rows[j].version <= version)
  }

  /** The join of all rows, live or not, with the greatest matching version of each name. */
  ghost function Listed(rows: Rows, namespace: Option<string>, state: Option<string>): set<nat> {
    set i | i in rows && IsMaxOfName(rows, rows[i].name, namespace, state, rows[i].version)
  }

  /** The join of the live rows with the greatest live version of each context id. */
  ghost function Loaded(rows: Rows): set<nat> {
    set i | i in rows && Live(rows, i) && IsMaxOfId(rows, rows[i].contextId, rows[i].version)
  }

  /** The first of the live rows of a name in descending order of version. */
  ghost predicate Got(rows: Rows, name: Name, i: nat) {
    && Matches(rows, i, name, None, None)
    && forall j :: Matches(rows, j, name, None, None) ==> rows[j].version <= rows[i].version
  }

  lemma {:induction false} GreatestExists(rows: Rows, candidates: set<nat>) returns (best: nat)
    requires candidates != {} && candidates <= rows.Keys
    ensures best in candidates && forall j :: j in candidates ==> rows[j].version <= rows[best].version
    decreases |candidates|
  {
    var i :| i in candidates;
    best := i;
    if candidates != {i} {
      assert candidates - {i} != {};
      var other := GreatestExists(rows, candidates - {i});
      if rows[other].version > rows[i].version {
        best := other;
      }
    }
  }

  lemma LatestOfName(rows: Rows, i: nat, namespace: Option<string>, state: Option<string>) returns (best: nat)
    requires Constrained(rows) && Live(rows, i) && Matches(rows, i, rows[i].name, namespace, state)
    ensures best in Listed(rows, namespace, state) && rows[best].name == rows[i].name
    ensures rows[best].version >= rows[i].version && Matches(rows, best, rows[i].name, namespace, state)
  {
    var candidates := set j | j in rows && Matches(rows, j, rows[i].name, namespace, state);
    assert i in candidates;
    best := GreatestExists(rows, candidates);
    assert forall j :: Matches(rows, j, rows[i].name, namespace, state) ==> j in candidates;
  }

  lemma LatestOfId(rows: Rows, i: nat) returns (best: nat)
    requires Constrained(rows) && Live(rows, i) && rows[i].contextId.Some?
    ensures best in Loaded(rows) && rows[best].contextId == rows[i].contextId
    ensures rows[best].version >= rows[i].version
  {
    var candidates := set j | j in rows && OfId(rows, j, rows[i].contextId);
    assert i in candidates;
    best := GreatestExists(rows, candidates);
    assert forall j :: OfId(rows, j, rows[i].contextId) ==> j in candidates;
  }

  /** The join picks up no dropped row and no row in another state: a listed row matches the filters itself. */
  lemma ListedMatches(rows: Rows, namespace: Option<string>, state: Option<string>, i: nat)
    requires Constrained(rows) && i in Listed(rows, namespace, state)
    ensures Matches(rows, i, rows[i].name, namespace, state)
  {}

  /**
   * What a filtered list holds: a row of each name with a live row in that namespace and state, and it is the
   * greatest version among those, not among all. It is the latest version exactly when the latest is in that state.
   */
  lemma ListExact(rows: Rows, namespace: Option<string>, state: Option<string>, i: nat)
    requires Constrained(rows)
    ensures i in Listed(rows, namespace, state) <==>
              && i in rows && Matches(rows, i, rows[i].name, namespace, state)
              && forall j :: Matches(rows, j, rows[i].name, namespace, state) ==> rows[j].version <= rows[i].version
    ensures namespace == None && i in Listed(rows, None, None) ==>
              (i in Listed(rows, None, state) <==> state == None || state.value == rows[i].state)
  {
    if i in Listed(rows, namespace, state) {
      ListedMatches(rows, namespace, state, i);
    }
    if i in Listed(rows, None, None) {
      ListedMatches(rows, None, None, i);
      if i in Listed(rows, None, state) {
        ListedMatches(rows, None, state, i);
      }
    }
  }

  /** `get` and the list without filters always select the same row of a name. */
  lemma GetIsListed(rows: Rows, name: Name, i: nat)
    requires Constrained(rows)
    ensures Got(rows, name, i) <==> i in Listed(rows, None, None) && rows[i].name == name
  {
    ListExact(rows, None, None, i);
  }

  // ---- When `load_contexts` agrees with them ---------------------------------------------

  predicate DistinctNames(rows: Rows, selected: set<nat>)
    requires selected <= rows.Keys
  {
    forall i, j :: i in selected && j in selected && rows[i].name == rows[j].name ==> i == j
  }

  predicate DistinctIds(rows: Rows, selected: set<nat>)
    requires selected <= rows.Keys
  {
    && (forall i :: i in selected ==> rows[i].contextId.Some?)
    && (forall i, j :: i in selected && j in selected && rows[i].contextId == rows[j].contextId ==> i == j)
  }

  lemma OneListedAName(rows: Rows, i: nat, j: nat)
    requires Constrained(rows) && i in Listed(rows, None, None) && j in Listed(rows, None, None)
    requires rows[i].name == rows[j].name
    ensures i == j
  {}

  lemma OneLoadedAnId(rows: Rows, i: nat, j: nat)
    requires Constrained(rows) && i in Loaded(rows) && j in Loaded(rows) && rows[i].contextId == rows[j].contextId
    ensures i == j && rows[i].contextId.Some?
  {}

  /** From a row on which they differ one climbs to another with a greater version, for ever. */
  lemma {:induction false} NoDifference(rows: Rows, i: nat, top: int)
    requires Constrained(rows) && forall j :: j in rows ==> rows[j].version <= top
    requires DistinctNames(rows, Loaded(rows)) && DistinctIds(rows, Listed(rows, None, None))
    requires i in rows
    ensures i in Loaded(rows) <==> i in Listed(rows, None, None)
    decreases top - rows[i].version
  {
    if i in Loaded(rows) && i !in Listed(rows, None, None) {
      var j := LatestOfName(rows, i, None, None);
      NoDifference(rows, j, top);
      assert false;
    }
    if i in Listed(rows, None, None) && i !in Loaded(rows) {
      ListedMatches(rows, None, None, i);
      var k := LatestOfId(rows, i);
      NoDifference(rows, k, top);
      assert false;
    }
  }

  /**
   * `load_contexts` selects the same rows as the list without filters exactly when no two of the rows it
   * loads share a name, and the rows listed all have ids, no two the same.
   */
  lemma QueriesAgreeExact(rows: Rows)
    requires Constrained(rows)
    ensures Loaded(rows) == Listed(rows, None, None) <==>
              DistinctNames(rows, Loaded(rows)) && DistinctIds(rows, Listed(rows, None, None))
  {
    if DistinctNames(rows, Loaded(rows)) && DistinctIds(rows, Listed(rows, None, None)) && rows.Keys != {} {
      var best := GreatestExists(rows, rows.Keys);
      forall i | i in rows ensures i in Loaded(rows) <==> i in Listed(rows, None, None) {
        NoDifference(rows, i, rows[best].version);
      }
    }
    if Loaded(rows) == Listed(rows, None, None) {
      forall i, j | i in Loaded(rows) && j in Loaded(rows) && rows[i].name == rows[j].name ensures i == j {
        OneListedAName(rows, i, j);
      }
      forall i, j | i in Loaded(rows) && j in Loaded(rows) && rows[i].contextId == rows[j].contextId
        ensures i == j && rows[i].contextId.Some?
      {
        OneLoadedAnId(rows, i, j);
      }
    }
  }

  // ---- The writes ------------------------------------------------------------------------

  /** Live rows share an id exactly when they share a name, and all have one. */
  ghost predicate Paired(rows: Rows) {
    && (forall i :: Live(rows, i) ==> rows[i].contextId.Some?)
    && (forall i, j :: Live(rows, i) && Live(rows, j) ==>
          (rows[i].contextId == rows[j].contextId <==> rows[i].name == rows[j].name))
  }

  lemma PairedSelections(rows: Rows)
    requires Constrained(rows) && Paired(rows)
    ensures DistinctNames(rows, Loaded(rows)) && DistinctIds(rows, Listed(rows, None, None))
  {
    forall i | i in Listed(rows, None, None) ensures Live(rows, i) {
      ListedMatches(rows, None, None, i);
    }
    forall i, j | i in Loaded(rows) && j in Loaded(rows) && rows[i].name == rows[j].name ensures i == j {
      OneLoadedAnId(rows, i, j);
    }
    var listed := Listed(rows, None, None);
    forall i, j | i in listed && j in listed && rows[i].contextId == rows[j].contextId
      ensures i == j
    {
      OneListedAName(rows, i, j);
    }
  }

  /** With one id to each live name and one live name to each id, all three queries select the same rows. */
  lemma PairedAgree(rows: Rows)
    requires Constrained(rows) && Paired(rows)
    ensures Loaded(rows) == Listed(rows, None, None)
    ensures forall i :: i in Loaded(rows) <==> i in rows && Got(rows, rows[i].name, i)
  {
    PairedSelections(rows);
    QueriesAgreeExact(rows);
    forall i | i in rows ensures i in Loaded(rows) <==> Got(rows, rows[i].name, i) {
      GetIsListed(rows, rows[i].name, i);
    }
  }

  datatype Table = Table(rows: Rows, next: nat)

  ghost predicate Sound(t: Table) {
    && Constrained(t.rows)
    && forall i :: i in t.rows ==> i < t.next
  }

  /** The row with this id and version, dropped or not. */
  predicate IsVersion(rows: Rows, i: nat, e: Entry) {
    i in rows && rows[i].contextId == Some(e.contextId) && rows[i].version == e.version
  }

  /** A different row already holds this name and version. */
  predicate Taken(rows: Rows, i: nat, e: Entry) {
    i in rows && !IsVersion(rows, i, e) && rows[i].name == e.name && rows[i].version == e.version
  }

  /** The row that a save leaves. */
  function RowOf(e: Entry, rawDdl: Option<string>, dropped: bool): ContextRow {
    ContextRow(e.name, e.version, Some(e.contextId), e.definitionText, Some(e.definitionHash), e.state,
               rawDdl, e.columns, dropped)
  }

  /** A save of a row that is there keeps its DDL text unless it brings one, and does not bring it back from a drop. */
  function Overwritten(row: ContextRow, e: Entry, rawDdl: Option<string>): ContextRow {
    RowOf(e, if rawDdl == None then row.rawDdl else rawDdl, row.dropped)
  }

  datatype Write = Save(entry: Entry, rawDdl: Option<string>) | Drop(contextId: string)

  ghost predicate Refused(rows: Rows, e: Entry) {
    exists i :: Taken(rows, i, e)
  }

  ghost predicate HasVersion(rows: Rows, e: Entry) {
    exists i :: IsVersion(rows, i, e)
  }

  /**
   * Save updates the row of that id and version, inserts a row when there is none, and is refused when another
   * row has the name and version. A dropped row that is saved stays dropped.
   */
  ghost predicate Saved(t: Table, e: Entry, rawDdl: Option<string>, t': Table) {
    if Refused(t.rows, e) then t' == t
    else if HasVersion(t.rows, e) then
      exists i :: IsVersion(t.rows, i, e) && t' == t.(rows := t.rows[i := Overwritten(t.rows[i], e, rawDdl)])
    else t' == Table(t.rows[t.next := RowOf(e, rawDdl, false)], t.next + 1)
  }

  /** Every version of the context is marked as dropped. */
  function Dropped(rows: Rows, id: string): Rows {
    map i | i in rows :: if rows[i].contextId == Some(id) then rows[i].(dropped := true) else rows[i]
  }

  ghost predicate Written(t: Table, w: Write, t': Table) {
    match w
    case Save(e, rawDdl) => Saved(t, e, rawDdl, t')
    case Drop(id) => t' == t.(rows := Dropped(t.rows, id))
  }

  predicate BothOrNeither(row: ContextRow, e: Entry) {
    row.contextId == Some(e.contextId) <==> row.name == e.name
  }

  /** No other live row has just one of the entry's id and name. */
  ghost predicate Fits(rows: Rows, e: Entry) {
    forall j :: Live(rows, j) && !IsVersion(rows, j, e) ==> BothOrNeither(rows[j], e)
  }

  /** The row a save writes is not live: there is none, or it is dropped. */
  ghost predicate WritesNothingLive(rows: Rows, e: Entry) {
    Refused(rows, e) || exists i :: IsVersion(rows, i, e) && rows[i].dropped
  }

  /** The row a save that is not refused writes, and that no other row changes. */
  lemma SavedRow(t: Table, e: Entry, rawDdl: Option<string>, t': Table) returns (i: nat)
    requires Sound(t) && Saved(t, e, rawDdl, t') && !Refused(t.rows, e)
    ensures i in t'.rows && t'.rows == t.rows[i := t'.rows[i]]
    ensures t'.rows[i] == if i in t.rows then Overwritten(t.rows[i], e, rawDdl) else RowOf(e, rawDdl, false)
    ensures forall j :: IsVersion(t.rows, j, e) ==> j == i
    ensures i in t.rows ==> IsVersion(t.rows, i, e)
  {
    if HasVersion(t.rows, e) {
      i :| IsVersion(t.rows, i, e) && t' == t.(rows := t.rows[i := Overwritten(t.rows[i], e, rawDdl)]);
    } else {
      i := t.next;
    }
  }

  /** The row has what the entry says, in every column that the entry speaks of. */
  predicate Carries(row: ContextRow, e: Entry) {
    && row.name == e.name && row.version == e.version && row.contextId == Some(e.contextId)
    && row.definitionText == e.definitionText && row.definitionHash == Some(e.definitionHash)
    && row.state == e.state && row.columns == e.columns
  }

  /** Whether the save writes a live row, in row `i`: a new one, or one that was not dropped. */
  predicate WritesLive(rows: Rows, i: nat) {
    i in rows ==> !rows[i].dropped
  }

  /** No other live row of the name that passes the filter on the state has a greater version. */
  ghost predicate NoneNewer(rows: Rows, i: nat, e: Entry, state: Option<string>) {
    forall j :: Live(rows, j) && j != i && rows[j].name == e.name && (state == None || state.value == rows[j].state) ==>
      rows[j].version <= e.version
  }

  /**
   * What is saved is what is found. An accepted save leaves one row that carries the entry: `get` finds it exactly if
   * it is live and no live row of the name is newer, and a list exactly if it is live, passes the filters, and no live
   * row of the name that passes them is newer.
   */
  lemma SaveThenFind(t: Table, e: Entry, rawDdl: Option<string>, t': Table,
                     namespace: Option<string>, state: Option<string>) returns (i: nat)
    requires Sound(t) && Saved(t, e, rawDdl, t') && !Refused(t.rows, e)
    ensures i in t'.rows && Carries(t'.rows[i], e)
    ensures forall j :: j != i ==> (j in t'.rows <==> j in t.rows) && (j in t.rows ==> t'.rows[j] == t.rows[j])
    ensures t'.rows[i].dropped <==> !WritesLive(t.rows, i)
    ensures t'.rows[i].rawDdl == if rawDdl == None && i in t.rows then t.rows[i].rawDdl else rawDdl
    ensures Got(t'.rows, e.name, i) <==> WritesLive(t.rows, i) && NoneNewer(t.rows, i, e, None)
    ensures i in Listed(t'.rows, namespace, state) <==>
              && WritesLive(t.rows, i)
              && (namespace == None || namespace.value == e.name.1) && (state == None || state.value == e.state)
              && NoneNewer(t.rows, i, e, state)
  {
    i := SavedRow(t, e, rawDdl, t');
    SaveSound(t, e, rawDdl, t');
    var rows, rows' := t.rows, t'.rows;
    assert forall j :: j != i ==> (Live(rows, j) <==> Live(rows', j));
    GetIsListed(rows', e.name, i);
    FoundExact(rows, rows', i, e, None, None);
    FoundExact(rows, rows', i, e, namespace, state);
  }

  lemma FoundExact(rows: Rows, rows': Rows, i: nat, e: Entry, namespace: Option<string>, state: Option<string>)
    requires Constrained(rows') && i in rows' && Carries(rows'[i], e)
    requires forall j :: j != i ==> (Live(rows, j) <==> Live(rows', j)) && (Live(rows, j) ==> rows'[j] == rows[j])
    requires !rows'[i].dropped <==> WritesLive(rows, i)
    ensures i in Listed(rows', namespace, state) <==>
              && WritesLive(rows, i)
              && (namespace == None || namespace.value == e.name.1) && (state == None || state.value == e.state)
              && NoneNewer(rows, i, e, state)
  {
    ListExact(rows', namespace, state, i);
    if Matches(rows', i, e.name, namespace, state) {
      forall j | j != i
        ensures Matches(rows', j, e.name, namespace, state) <==>
                Live(rows, j) && rows[j].name == e.name && (state == None || state.value == rows[j].state)
      {
        assert Live(rows, j) ==> rows'[j] == rows[j];
      }
    }
  }

  lemma SaveSound(t: Table, e: Entry, rawDdl: Option<string>, t': Table)
    requires Sound(t) && Saved(t, e, rawDdl, t')
    ensures Sound(t')
  {
    if !Refused(t.rows, e) {
      var i := SavedRow(t, e, rawDdl, t');
      forall j | j in t.rows && j != i && t.rows[j].version == e.version
        ensures t.rows[j].name != e.name && t.rows[j].contextId != Some(e.contextId)
      {
        assert !Taken(t.rows, j, e);
        assert !IsVersion(t.rows, j, e);
      }
    }
  }

  /** Saving keeps live rows paired exactly when the entry fits, or nothing live is written. */
  lemma SaveKeepsPairedExact(t: Table, e: Entry, rawDdl: Option<string>, t': Table)
    requires Sound(t) && Paired(t.rows) && Saved(t, e, rawDdl, t')
    ensures Paired(t'.rows) <==> Fits(t.rows, e) || WritesNothingLive(t.rows, e)
  {
    if !Refused(t.rows, e) {
      var i := SavedRow(t, e, rawDdl, t');
      assert forall j :: j != i ==> (Live(t.rows, j) <==> Live(t'.rows, j));
      if Live(t'.rows, i) && Paired(t'.rows) {
        forall j | Live(t.rows, j) && !IsVersion(t.rows, j, e) ensures BothOrNeither(t.rows[j], e) {
          assert Live(t'.rows, j);
        }
      }
    }
  }

  lemma DropKeepsPaired(t: Table, id: string, t': Table)
    requires Sound(t) && Written(t, Drop(id), t')
    ensures Sound(t')
    ensures Paired(t.rows) ==> Paired(t'.rows)
    ensures forall i :: i in Loaded(t'.rows) <==> i in Loaded(t.rows) && t.rows[i].contextId != Some(id)
  {
    assert forall i :: Live(t'.rows, i) <==> Live(t.rows, i) && t.rows[i].contextId != Some(id);
    forall i ensures i in Loaded(t'.rows) <==> i in Loaded(t.rows) && t.rows[i].contextId != Some(id) {
      if Live(t'.rows, i) {
        var own := t.rows[i].contextId;
        assert forall j :: OfId(t'.rows, j, own) <==> OfId(t.rows, j, own);
      }
    }
  }

  // ---- Whole runs ------------------------------------------------------------------------

  ghost predicate WriteRun(run: seq<Table>, writes: seq<Write>) {
    && |run| == |writes| + 1
    && forall i :: 0 <= i < |writes| ==> Written(run[i], writes[i], run[i + 1])
  }

  /** Every save either fits the rows it meets or writes nothing live. */
  ghost predicate AllFit(run: seq<Table>, writes: seq<Write>)
    requires |run| == |writes| + 1
  {
    forall i :: 0 <= i < |writes| && writes[i].Save? ==>
                  Fits(run[i].rows, writes[i].entry) || WritesNothingLive(run[i].rows, writes[i].entry)
  }

  /** In every state of a run of fitting saves and drops, all three queries select the same row of each context. */
  lemma {:induction false} RunAgrees(run: seq<Table>, writes: seq<Write>, i: nat)
    requires WriteRun(run, writes) && AllFit(run, writes) && i < |run|
    requires Sound(run[0]) && Paired(run[0].rows)
    ensures Sound(run[i]) && Paired(run[i].rows)
    ensures Loaded(run[i].rows) == Listed(run[i].rows, None, None)
    ensures forall j :: j in Loaded(run[i].rows) <==> j in run[i].rows && Got(run[i].rows, run[i].rows[j].name, j)
  {
    if i > 0 {
      RunAgrees(run, writes, i - 1);
      var t, t' := run[i - 1], run[i];
      assert Written(run[i - 1], writes[i - 1], run[i]);
      match writes[i - 1]
      case Save(e, rawDdl) =>
        SaveSound(t, e, rawDdl, t');
        SaveKeepsPairedExact(t, e, rawDdl, t');
      case Drop(id) =>
        DropKeepsPaired(t, id, t');
    }
    PairedAgree(run[i].rows);
  }

  // ---- Backfill --------------------------------------------------------------------------

  ghost predicate Touched(rows: Rows, name: Name) {
    exists i :: i in rows && rows[i].contextId == None && rows[i].name == name
  }

  /** A name's new id is used by no row and no other name. */
  ghost predicate FreshIds(rows: Rows, newId: Name -> string) {
    && (forall i, name :: i in rows ==> rows[i].contextId != Some(newId(name)))
    && (forall m, n :: newId(m) == newId(n) ==> m == n)
  }

  function Refill(row: ContextRow, id: string, hash: string): (r: ContextRow)
    ensures Refilled(row, r, id)
  {
    row.(contextId := Some(id), definitionHash := if row.definitionHash == None then Some(hash) else row.definitionHash)
  }

  predicate Refilled(before: ContextRow, after: ContextRow, id: string) {
    && after == before.(contextId := Some(id), definitionHash := after.definitionHash)
    && after.definitionHash.Some?
    && (before.definitionHash.Some? ==> after.definitionHash == before.definitionHash)
  }

  function RefillName(rows: Rows, name: Name, id: string, hash: string): Rows {
    map i | i in rows :: if rows[i].name == name then Refill(rows[i], id, hash) else rows[i]
  }

  function MissingNames(rows: Rows): set<Name> {
    set i | i in rows && rows[i].contextId == None :: rows[i].name
  }

  /** The rows of these names are refilled, and the others are as they were. */
  ghost predicate PartFilled(rows: Rows, rows': Rows, newId: Name -> string, filled: set<Name>) {
    && rows'.Keys == rows.Keys
    && forall i :: i in rows ==>
         if rows[i].name in filled then Refilled(rows[i], rows'[i], newId(rows[i].name)) else rows'[i] == rows[i]
  }

  lemma OneMoreName(rows: Rows, rows': Rows, newId: Name -> string, filled: set<Name>, name: Name, hash: string)
    requires PartFilled(rows, rows', newId, filled) && name !in filled
    ensures PartFilled(rows, RefillName(rows', name, newId(name), hash), newId, filled + {name})
  {}

  /** A hash that was filled in is that of the definition of one row of the name with a missing id. */
  ghost predicate HashFrom(rows: Rows, name: Name, given: Option<string>, hash: string -> string) {
    exists j :: j in rows && rows[j].contextId == None && rows[j].name == name
                && given == Some(hash(rows[j].definitionText))
  }

  ghost predicate PartHashed(rows: Rows, rows': Rows, hash: string -> string, filled: set<Name>) {
    rows'.Keys == rows.Keys &&
    forall i :: i in rows && rows[i].name in filled && rows[i].definitionHash == None ==>
      HashFrom(rows, rows[i].name, rows'[i].definitionHash, hash)
  }

  /** Every hash that was missing in a touched name is such a hash. */
  ghost predicate Hashed(rows: Rows, rows': Rows, hash: string -> string) {
    rows'.Keys == rows.Keys &&
    forall i :: i in rows && Touched(rows, rows[i].name) && rows[i].definitionHash == None ==>
      HashFrom(rows, rows[i].name, rows'[i].definitionHash, hash)
  }

  lemma OneMoreHashed(rows: Rows, rows': Rows, newId: Name -> string, hash: string -> string, filled: set<Name>,
                      name: Name, sample: nat)
    requires PartFilled(rows, rows', newId, filled) && PartHashed(rows, rows', hash, filled) && name !in filled
    requires sample in rows && rows[sample].contextId == None && rows[sample].name == name
    ensures PartHashed(rows, RefillName(rows', name, newId(name), hash(rows[sample].definitionText)), hash,
                       filled + {name})
  {
    var given := hash(rows[sample].definitionText);
    var rows'' := RefillName(rows', name, newId(name), given);
    assert HashFrom(rows, name, Some(given), hash);
    forall i | i in rows && rows[i].name in filled + {name} && rows[i].definitionHash == None
      ensures HashFrom(rows, rows[i].name, rows''[i].definitionHash, hash)
    {
      if rows[i].name == name {
        assert rows'[i] == rows[i] && rows''[i].definitionHash == Some(given);
      } else {
        assert rows'[i].name == rows[i].name && rows''[i] == rows'[i];
      }
    }
  }

  lemma AllHashed(rows: Rows, rows': Rows, hash: string -> string)
    requires PartHashed(rows, rows', hash, MissingNames(rows))
    ensures Hashed(rows, rows', hash)
  {}

  lemma AllFilled(rows: Rows, rows': Rows, newId: Name -> string)
    requires PartFilled(rows, rows', newId, MissingNames(rows))
    ensures Backfilled(rows, rows', newId)
  {}

  /** Every row of a name with a missing id has the name's new id, and a hash; other rows are as they were. */
  ghost predicate Backfilled(rows: Rows, rows': Rows, newId: Name -> string) {
    && rows'.Keys == rows.Keys
    && forall i :: i in rows ==>
         if Touched(rows, rows[i].name) then Refilled(rows[i], rows'[i], newId(rows[i].name)) else rows'[i] == rows[i]
  }

  lemma BackfillPair(rows: Rows, rows': Rows, newId: Name -> string, i: nat, j: nat)
    requires FreshIds(rows, newId) && Backfilled(rows, rows', newId) && i in rows && j in rows
    ensures rows'[i].contextId.Some? && rows'[i].name == rows[i].name && rows'[i].version == rows[i].version
    ensures Touched(rows, rows[i].name) ==>
              (rows'[i].contextId == rows'[j].contextId <==> rows[i].name == rows[j].name)
    ensures !Touched(rows, rows[i].name) && !Touched(rows, rows[j].name) ==>
              rows'[i] == rows[i] && rows'[j] == rows[j]
  {}

  /** After a backfill nothing is missing, one id goes with each name it touched, and nothing else has that id. */
  lemma BackfillIds(rows: Rows, rows': Rows, newId: Name -> string)
    requires Constrained(rows) && FreshIds(rows, newId) && Backfilled(rows, rows', newId)
    ensures Constrained(rows')
    ensures forall i :: i in rows' ==> rows'[i].contextId.Some? && rows'[i].name == rows[i].name
    ensures forall i, j :: i in rows' && j in rows' && Touched(rows, rows[i].name) ==>
              (rows'[i].contextId == rows'[j].contextId <==> rows'[i].name == rows'[j].name)
  {
    forall i, j | i in rows' && j in rows'
      ensures rows'[i].contextId.Some? && rows'[i].name == rows[i].name && rows'[j].name == rows[j].name
      ensures Touched(rows, rows[i].name) ==>
                (rows'[i].contextId == rows'[j].contextId <==> rows'[i].name == rows'[j].name)
      ensures i != j && rows'[i].version == rows'[j].version ==>
                rows'[i].name != rows'[j].name && rows'[i].contextId != rows'[j].contextId
    {
      BackfillPair(rows, rows', newId, i, j);
      BackfillPair(rows, rows', newId, j, i);
    }
  }

  /** Whatever new ids a second backfill would give out, it changes nothing. */
  lemma BackfillTwice(rows: Rows, rows': Rows, rows'': Rows, newId: Name -> string, newId': Name -> string)
    requires Backfilled(rows, rows', newId) && Backfilled(rows', rows'', newId')
    ensures rows'' == rows'
  {
    forall i | i in rows' ensures rows''[i] == rows'[i] && !Touched(rows', rows'[i].name) {
      forall j | j in rows' ensures rows'[j].contextId.Some? {
        assert rows[j].contextId == None ==> Touched(rows, rows[j].name);
      }
    }
  }

  /** After a backfill live rows are paired exactly when those of the names it did not touch were. */
  lemma BackfillPairsExact(rows: Rows, rows': Rows, newId: Name -> string)
    requires Constrained(rows) && FreshIds(rows, newId) && Backfilled(rows, rows', newId)
    ensures Paired(rows') <==>
              forall i, j :: Live(rows, i) && Live(rows, j)
                             && !Touched(rows, rows[i].name) && !Touched(rows, rows[j].name) ==>
                (rows[i].contextId == rows[j].contextId <==> rows[i].name == rows[j].name)
  {
    BackfillIds(rows, rows', newId);
    assert forall i :: Live(rows', i) <==> Live(rows, i);
  }

  lemma MoveOne<T>(from: set<T>, to: set<T>, x: T)
    requires x in from && to !! from
    ensures (to + {x}) !! (from - {x}) && (to + {x}) + (from - {x}) == to + from
    ensures |from - {x}| < |from|
  {}

  /** Name by name, as long as one with a missing id is left. */
  method FillMissing(rows: Rows, newId: Name -> string, hash: string -> string) returns (rows': Rows)
    ensures Backfilled(rows, rows', newId) && Hashed(rows, rows', hash)
  {
    rows' := rows;
    var pending := MissingNames(rows);
    ghost var filled: set<Name> := {};
    while pending != {}
      invariant filled !! pending && filled + pending == MissingNames(rows)
      invariant PartFilled(rows, rows', newId, filled) && PartHashed(rows, rows', hash, filled)
      decreases |pending|
    {
      var name :| name in pending;
      var sample :| sample in rows' && rows'[sample].contextId == None && rows'[sample].name == name;
      var definitionHash := hash(rows'[sample].definitionText);
      OneMoreName(rows, rows', newId, filled, name, definitionHash);
      OneMoreHashed(rows, rows', newId, hash, filled, name, sample);
      rows' := RefillName(rows', name, newId(name), definitionHash);
      MoveOne(pending, filled, name);
      pending, filled := pending - {name}, filled + {name};
    }
    AllFilled(rows, rows', newId);
    AllHashed(rows, rows', hash);
  }

  /** A save is refused exactly when a row has its name and version under another id, or none. */
  lemma RefusedExact(rows: Rows, e: Entry)
    ensures !Refused(rows, e) <==> forall i :: i in rows && rows[i].name == e.name && rows[i].version == e.version ==>
                                     rows[i].contextId == Some(e.contextId)
  {
    forall i | i in rows && rows[i].name == e.name && rows[i].version == e.version
      ensures Taken(rows, i, e) <==> rows[i].contextId != Some(e.contextId)
    {}
  }

  // ---- The repository's methods ----------------------------------------------------------

  class ContextCatalog {
    var rows: Rows
    var next: nat

    function Contents(): Table
      reads this
    {
      Table(rows, next)
    }

    /** Give every name with a missing id a new one, for all of its rows. */
    method Backfill(newId: Name -> string, hash: string -> string)
      requires Sound(Contents()) && FreshIds(rows, newId)
      modifies this`rows
      ensures Sound(Contents()) && Backfilled(old(rows), rows, newId) && Hashed(old(rows), rows, hash)
    {
      rows := FillMissing(rows, newId, hash);
      BackfillIds(old(rows), rows, newId);
    }

    method SaveContext(e: Entry, rawDdl: Option<string>) returns (ok: bool)
      requires Sound(Contents())
      modifies this
      ensures Sound(Contents()) && Saved(old(Contents()), e, rawDdl, Contents())
      ensures ok <==> !Refused(old(rows), e)
      ensures ok <==> forall i :: i in old(rows) && old(rows)[i].name == e.name && old(rows)[i].version == e.version ==>
                        old(rows)[i].contextId == Some(e.contextId)
    {
      ghost var before := Contents();
      RefusedExact(rows, e);
      if i :| i in rows && Taken(rows, i, e) {
        return false;
      }
      if i :| i in rows && IsVersion(rows, i, e) {
        rows := rows[i := Overwritten(rows[i], e, rawDdl)];
      } else {
        rows, next := rows[next := RowOf(e, rawDdl, false)], next + 1;
      }
      SaveSound(before, e, rawDdl, Contents());
      return true;
    }

    method DropContext(contextId: string)
      requires Sound(Contents())
      modifies this`rows
      ensures Sound(Contents()) && Written(old(Contents()), Drop(contextId), Contents())
    {
      DropKeepsPaired(Contents(), contextId, Contents().(rows := Dropped(rows, contextId)));
      rows := Dropped(rows, contextId);
    }
  }
}
