/**
 * Runs of the snapshot repository: any mix of promotions and prunes, each of which may fail at any statement.
 * With prompt promotions the stored snapshots cover every instant, and with the newest data pruning changes no answer.
 */
module SnapshotRuns {
  import opened Outcomes
  import opened SnapshotTables
  import opened SnapshotPruning
  import opened SnapshotHydration
  import opened SnapshotRepository
  import opened MembershipHistory

  datatype Operation =
    | DoPromote(p: Promotion, failAt: Option<nat>)
    | DoPrune(c: ContextId, cutoff: Instant, failAt: Option<nat>)

  /** What an operation may do: nothing, when it fails, or all of its effect. */
  ghost predicate Performed(t: Tables, op: Operation, t': Tables, codec: Codec) {
    || t' == t
    || match op
       case DoPromote(p, _) => KeyOf(p) !in t.snapshots && t' == Promoted(t, p, codec)
       case DoPrune(c, cutoff, _) =>
         exists anchor :: IsAsOf(t.snapshots, c, cutoff, anchor) && t' == Pruned(t, c, cutoff, anchor)
  }

  ghost predicate OperationRun(run: seq<Tables>, ops: seq<Operation>, codec: Codec) {
    && |run| == |ops| + 1 && run[0].snapshots == map[] && run[0].payloads == map[]
    && forall i :: 0 <= i < |ops| ==> Performed(run[i], ops[i], run[i + 1], codec)
  }

  /** Promotions that take effect bring a new and greater version when they do. */
  ghost predicate AllIncreasing(run: seq<Tables>, ops: seq<Operation>)
    requires |run| == |ops| + 1
  {
    forall i :: 0 <= i < |ops| && ops[i].DoPromote? && run[i + 1] != run[i] ==>
                  NewVersion(run[i].snapshots, KeyOf(ops[i].p))
  }

  lemma PerformedSteps(t: Tables, op: Operation, t': Tables, codec: Codec)
    requires Performed(t, op, t', codec)
    requires op.DoPromote? && t' != t ==> NewVersion(t.snapshots, KeyOf(op.p))
    ensures TableStep(t, t', codec)
  {
    if t' != t {
      match op
      case DoPromote(p, _) =>
        assert NewVersion(t.snapshots, KeyOf(p)) && t' == Promoted(t, p, codec);
      case DoPrune(c, cutoff, _) =>
        var anchor :| IsAsOf(t.snapshots, c, cutoff, anchor) && t' == Pruned(t, c, cutoff, anchor);
    }
  }

  /** Runs of the repository with increasing versions are the runs that `RunSound` is about. */
  lemma OperationsSound(run: seq<Tables>, ops: seq<Operation>, codec: Codec)
    requires OperationRun(run, ops, codec) && AllIncreasing(run, ops)
    ensures TableRun(run, codec)
    ensures forall i :: 0 <= i < |run| ==> Sound(run[i], codec)
  {
    forall i | 0 <= i < |run| - 1 ensures TableStep(run[i], run[i + 1], codec) {
      assert Performed(run[i], ops[i], run[i + 1], codec);
      PerformedSteps(run[i], ops[i], run[i + 1], codec);
    }
    forall i | 0 <= i < |run| ensures Sound(run[i], codec) {
      RunSound(run, codec, i);
    }
  }

  /** A new version, valid from when it was computed, which is later than every snapshot of its context. */
  ghost predicate Prompt(rows: map<Key, SnapshotRow>, p: Promotion) {
    && NewVersion(rows, KeyOf(p))
    && p.snapshot.validFrom == p.snapshot.computedAt
    && forall k {:trigger k in rows} :: k in rows && k.context == KeyOf(p).context ==>
         rows[k].computedAt < p.snapshot.computedAt
  }

  /** A new version, on data no older than that of any snapshot of its context. */
  ghost predicate NewestData(rows: map<Key, SnapshotRow>, p: Promotion) {
    && NewVersion(rows, KeyOf(p))
    && forall k {:trigger k in rows} :: k in rows && k.context == KeyOf(p).context ==>
         rows[k].dataAsOf <= p.snapshot.dataAsOf
  }

  /** Promotions that take effect are prompt when they do. */
  ghost predicate AllPrompt(run: seq<Tables>, ops: seq<Operation>)
    requires |run| == |ops| + 1
  {
    forall i :: 0 <= i < |ops| && ops[i].DoPromote? && run[i + 1] != run[i] ==> Prompt(run[i].snapshots, ops[i].p)
  }

  /** Promotions that take effect have the newest data when they do. */
  ghost predicate AllNewestData(run: seq<Tables>, ops: seq<Operation>)
    requires |run| == |ops| + 1
  {
    forall i :: 0 <= i < |ops| && ops[i].DoPromote? && run[i + 1] != run[i] ==> NewestData(run[i].snapshots, ops[i].p)
  }

  lemma PromotionPrompt(t: Tables, p: Promotion, codec: Codec)
    requires Timely(t.snapshots) && Prompt(t.snapshots, p)
    ensures Timely(Promoted(t, p, codec).snapshots)
  {
    var rows, rows' := t.snapshots, Promoted(t, p, codec).snapshots;
    PromotedRows(t, p, codec);
    assert forall k {:trigger k in rows} :: k in rows ==>
      rows'[k].computedAt == rows[k].computedAt && rows'[k].validFrom == rows[k].validFrom;
  }

  lemma PromotionMonotone(t: Tables, p: Promotion, codec: Codec)
    requires MonotoneData(t.snapshots) && NewestData(t.snapshots, p)
    ensures MonotoneData(Promoted(t, p, codec).snapshots)
  {
    var rows, rows' := t.snapshots, Promoted(t, p, codec).snapshots;
    PromotedRows(t, p, codec);
    assert forall k {:trigger k in rows} :: k in rows ==> rows'[k].dataAsOf == rows[k].dataAsOf;
  }

  lemma PromptIncreasing(run: seq<Tables>, ops: seq<Operation>)
    requires |run| == |ops| + 1 && AllPrompt(run, ops)
    ensures AllIncreasing(run, ops)
  {
    forall i | 0 <= i < |ops| && ops[i].DoPromote? && run[i + 1] != run[i]
      ensures NewVersion(run[i].snapshots, KeyOf(ops[i].p))
    {
      assert Prompt(run[i].snapshots, ops[i].p);
    }
  }

  /**
   * In every state of a run with prompt promotions, whatever the age of their data, the tables are sound and
   * rows are valid from when they were computed, in version order: the premises of `ExactlyOneValid`.
   */
  lemma {:induction false} RunTimely(run: seq<Tables>, ops: seq<Operation>, codec: Codec, i: nat)
    requires OperationRun(run, ops, codec) && AllPrompt(run, ops) && i < |run|
    ensures Sound(run[i], codec) && Timely(run[i].snapshots)
  {
    PromptIncreasing(run, ops);
    OperationsSound(run, ops, codec);
    if i > 0 {
      RunTimely(run, ops, codec, i - 1);
      var t, t', op := run[i - 1], run[i], ops[i - 1];
      assert Performed(t, op, t', codec);
      if t' != t {
        match op
        case DoPromote(p, _) =>
          assert Prompt(t.snapshots, ops[i - 1].p);
          PromotionPrompt(t, p, codec);
        case DoPrune(c, cutoff, _) =>
          var anchor :| IsAsOf(t.snapshots, c, cutoff, anchor) && t' == Pruned(t, c, cutoff, anchor);
      }
    }
  }

  /** In every state of a run whose promotions have the newest data, data instants grow with the version. */
  lemma {:induction false} RunMonotone(run: seq<Tables>, ops: seq<Operation>, codec: Codec, i: nat)
    requires OperationRun(run, ops, codec) && AllNewestData(run, ops) && i < |run|
    ensures MonotoneData(run[i].snapshots)
  {
    if i > 0 {
      RunMonotone(run, ops, codec, i - 1);
      var t, t', op := run[i - 1], run[i], ops[i - 1];
      assert Performed(t, op, t', codec);
      if t' != t && op.DoPromote? {
        assert NewestData(t.snapshots, ops[i - 1].p);
        PromotionMonotone(t, op.p, codec);
      }
    }
  }

  /** After any run of prompt promotions, at every instant from a retained start on, exactly one snapshot is valid. */
  lemma RunTiles(run: seq<Tables>, ops: seq<Operation>, codec: Codec, i: nat, first: Key, at: Instant) returns (k: Key)
    requires OperationRun(run, ops, codec) && AllPrompt(run, ops) && i < |run|
    requires first in run[i].snapshots && run[i].snapshots[first].validFrom <= at
    ensures var rows := run[i].snapshots;
            && k in rows && k.context == first.context && ValidAt(rows[k], at)
            && forall j {:trigger j in rows} ::
                j in rows && j.context == first.context && ValidAt(rows[j], at) ==> j == k
  {
    RunTimely(run, ops, codec, i);
    k := ExactlyOneValid(run[i].snapshots, first, at);
  }

  /** When promotions have the newest data, a prune changes no as-of answer from its cutoff on. */
  lemma RunAnswers(run: seq<Tables>, ops: seq<Operation>, codec: Codec, i: nat)
    requires OperationRun(run, ops, codec) && AllNewestData(run, ops) && i < |ops| && ops[i].DoPrune?
    ensures SameAnswers(run[i].snapshots, run[i + 1].snapshots, ops[i].c, ops[i].cutoff)
  {
    RunMonotone(run, ops, codec, i);
    var t, t', c, cutoff := run[i], run[i + 1], ops[i].c, ops[i].cutoff;
    assert Performed(t, ops[i], t', codec);
    if t' != t {
      var anchor :| IsAsOf(t.snapshots, c, cutoff, anchor) && t' == Pruned(t, c, cutoff, anchor);
      MonotoneReplaces(t.snapshots, c, cutoff, anchor);
      PruneKeepsAnswersExact(t, c, cutoff, anchor);
    }
  }

  /** In any run at all, a prune changes no as-of answer of another context. */
  lemma RunOthers(run: seq<Tables>, ops: seq<Operation>, codec: Codec, i: nat, c: ContextId, at: Instant, v: nat)
    requires OperationRun(run, ops, codec) && i < |ops| && ops[i].DoPrune? && c != ops[i].c
    ensures IsAsOf(run[i].snapshots, c, at, v) <==> IsAsOf(run[i + 1].snapshots, c, at, v)
  {
    assert Performed(run[i], ops[i], run[i + 1], codec);
    var rows, rows' := run[i].snapshots, run[i + 1].snapshots;
    assert forall k: Key :: k.context == c ==> (k in rows <==> k in rows');
  }

  lemma {:induction false} InsertsGrow(history: seq<HistoryRow>, p: Promotion, n: nat)
    requires n <= |p.events|
    ensures history <= InsertEvents(history, p, n)
  {
    if n > 0 {
      InsertsGrow(history, p, n - 1);
    }
  }

  lemma KeptStays(history: seq<HistoryRow>, c: ContextId, cutoff: Instant, row: HistoryRow)
    ensures row in KeptHistory(history, c, cutoff) <==>
            row in history && (row.contextId != c || cutoff <= row.change.effectiveAt)
  {
    HistoryKept(history, c, cutoff);
    MarkedIn(history, Lasting(history, c, cutoff), row);
  }

  lemma RowStays(t: Tables, op: Operation, t': Tables, codec: Codec, row: HistoryRow)
    requires Performed(t, op, t', codec) && row in t.history
    requires op.DoPrune? && op.c == row.contextId ==> op.cutoff <= row.change.effectiveAt
    ensures row in t'.history
  {
    if t' != t {
      match op
      case DoPromote(p, _) =>
        InsertsGrow(t.history, p, |p.events|);
      case DoPrune(c, cutoff, _) =>
        KeptStays(t.history, c, cutoff, row);
    }
  }

  /**
   * A history row outlives every operation but a prune of its own context with a cutoff after the row took effect;
   * such a prune, if it takes effect, removes it.
   */
  lemma {:induction false} RunHistory(run: seq<Tables>, ops: seq<Operation>, codec: Codec, i: nat, j: nat,
                                      row: HistoryRow)
    requires OperationRun(run, ops, codec) && i <= j < |run| && row in run[i].history
    ensures (forall k :: i <= k < j && ops[k].DoPrune? && ops[k].c == row.contextId ==>
               ops[k].cutoff <= row.change.effectiveAt) ==> row in run[j].history
    ensures i < j && ops[j - 1].DoPrune? && ops[j - 1].c == row.contextId && row.change.effectiveAt < ops[j - 1].cutoff
              && run[j] != run[j - 1] ==>
                row !in run[j].history
  {
    if i < j {
      RunHistory(run, ops, codec, i, j - 1, row);
      var t, t', op := run[j - 1], run[j], ops[j - 1];
      assert Performed(t, op, t', codec);
      if row in t.history && (op.DoPrune? && op.c == row.contextId ==> op.cutoff <= row.change.effectiveAt) {
        RowStays(t, op, t', codec, row);
      }
      if op.DoPrune? {
        KeptStays(t.history, op.c, op.cutoff, row);
      }
    }
  }

  /** The catalog row that a current snapshot was computed under, if there is one, names it as the current one. */
  ghost predicate StatusAgrees(t: Tables) {
    forall k {:trigger t.snapshots[k]} ::
      k in t.snapshots && t.snapshots[k].state == Current &&
      Key(k.context, t.snapshots[k].definitionVersion) in t.contexts ==>
        var status := t.contexts[Key(k.context, t.snapshots[k].definitionVersion)];
        status.currentSnapshot == Some(k.version) && status.lastError == None
  }

  lemma PromotionStatus(t: Tables, p: Promotion, codec: Codec)
    requires StatusAgrees(t) && KeyOf(p) !in t.snapshots
    ensures StatusAgrees(Promoted(t, p, codec))
  {
    var rows', key := Promoted(t, p, codec).snapshots, KeyOf(p);
    PromotedRows(t, p, codec);
    forall k {:trigger rows'[k]} | k in rows' && rows'[k].state == Current
      ensures k == key || k.context != key.context
    {
      if k != key {
        assert rows'[k] == Supersede(t.snapshots, key.context, p.snapshot.computedAt)[k];
      }
    }
  }

  /** In every state of any run, whatever fails, the catalog names the current snapshot as the current one. */
  lemma {:induction false} RunStatus(run: seq<Tables>, ops: seq<Operation>, codec: Codec, i: nat)
    requires OperationRun(run, ops, codec) && i < |run|
    ensures StatusAgrees(run[i])
  {
    if i > 0 {
      RunStatus(run, ops, codec, i - 1);
      var t, t', op := run[i - 1], run[i], ops[i - 1];
      assert Performed(t, op, t', codec);
      if t' != t && op.DoPromote? {
        PromotionStatus(t, op.p, codec);
      }
    }
  }

  method Perform(repository: SnapshotRepository, op: Operation)
    modifies repository
    ensures Performed(old(repository.View()), op, repository.View(), repository.codec)
  {
    match op
    case DoPromote(p, failAt) => var _ := repository.Promote(p, failAt);
    case DoPrune(c, cutoff, failAt) => var _, _ := repository.Prune(c, cutoff, failAt);
  }

  /** The repository's methods make such runs, whatever fails. */
  method Operate(repository: SnapshotRepository, ops: seq<Operation>) returns (ghost run: seq<Tables>)
    requires repository.View().snapshots == map[] && repository.View().payloads == map[]
    modifies repository
    ensures OperationRun(run, ops, repository.codec)
    ensures run[0] == old(repository.View()) && run[|ops|] == repository.View()
    ensures AllIncreasing(run, ops) ==> forall i :: 0 <= i < |run| ==> Sound(run[i], repository.codec)
  {
    run := [repository.View()];
    for i := 0 to |ops|
      invariant |run| == i + 1 && run[0] == old(repository.View()) && run[i] == repository.View()
      invariant forall j :: 0 <= j < i ==> Performed(run[j], ops[j], run[j + 1], repository.codec)
    {
      Perform(repository, ops[i]);
      run := run + [repository.View()];
    }
    if AllIncreasing(run, ops) {
      OperationsSound(run, ops, repository.codec);
    }
  }

  lemma {:induction false} AllSound(t: Tables, ps: seq<Promotion>, codec: Codec)
    requires t.snapshots == map[] && t.payloads == map[] && Contiguous(ps)
    ensures Sound(PromoteAll(t, ps, codec), codec)
  {
    if ps != [] {
      var init, p := ps[..|ps| - 1], ps[|ps| - 1];
      AllSound(t, init, codec);
      NextIsNew(t, init, p, codec);
      PromotionKeeps(PromoteAll(t, init, codec), p, codec);
    }
  }

  lemma NextIsNew(t: Tables, ps: seq<Promotion>, p: Promotion, codec: Codec)
    requires t.snapshots == map[] && t.payloads == map[] && Contiguous(ps)
    requires p.snapshot.version == |Of(ps, p.entry.contextId)| + 1
    ensures NewVersion(PromoteAll(t, ps, codec).snapshots, KeyOf(p))
    ensures KeyOf(p) !in PromoteAll(t, ps, codec).snapshots && KeyOf(p) !in PromoteAll(t, ps, codec).payloads
  {
    var rows := PromoteAll(t, ps, codec).snapshots;
    PromoteAllStores(t, ps, codec);
    forall k | k in rows && k.context == KeyOf(p).context ensures k.version < KeyOf(p).version {
      assert k == Key(k.context, k.version);
    }
  }

  lemma {:induction false} ContiguousPrefix(ps: seq<Promotion>, n: nat)
    requires Contiguous(ps) && n <= |ps|
    ensures Contiguous(ps[..n])
  {
    if n == |ps| {
      assert ps[..n] == ps;
    } else {
      ContiguousPrefix(ps[..|ps| - 1], n);
      assert ps[..|ps| - 1][..n] == ps[..n];
    }
  }

  /** Promote one snapshot, after a first try that may fail at some statement. */
  method PromoteAgain(repository: SnapshotRepository, p: Promotion, failAt: Option<nat>)
    requires OneCurrent(repository.snapshots) && KeyOf(p) !in repository.payloads && KeyOf(p) !in repository.snapshots
    modifies repository
    ensures repository.View() == Promoted(old(repository.View()), p, repository.codec)
  {
    var ok := repository.Promote(p, failAt);
    if !ok {
      var retried := repository.Promote(p, None);
    }
  }

  lemma SoundOneCurrent(t: Tables, codec: Codec)
    requires Sound(t, codec)
    ensures OneCurrent(t.snapshots)
  {
    forall j, k | j in t.snapshots && k in t.snapshots && j.context == k.context
                  && t.snapshots[j].state == Current && t.snapshots[k].state == Current
      ensures j == k
    {
      LatestUnique(t.snapshots, j, k);
    }
  }

  lemma NextPromotes(t: Tables, ps: seq<Promotion>, n: nat, codec: Codec)
    requires t.snapshots == map[] && t.payloads == map[] && Contiguous(ps) && n < |ps|
    ensures var before := PromoteAll(t, ps[..n], codec);
            && OneCurrent(before.snapshots) && KeyOf(ps[n]) !in before.payloads && KeyOf(ps[n]) !in before.snapshots
            && PromoteAll(t, ps[..n + 1], codec) == Promoted(before, ps[n], codec)
  {
    ContiguousPrefix(ps, n);
    ContiguousPrefix(ps, n + 1);
    assert ps[..n + 1][..n] == ps[..n];
    AllSound(t, ps[..n], codec);
    NextIsNew(t, ps[..n], ps[n], codec);
    SoundOneCurrent(PromoteAll(t, ps[..n], codec), codec);
  }

  method PromoteEach(repository: SnapshotRepository, ps: seq<Promotion>, failures: seq<Option<nat>>)
    requires repository.View().snapshots == map[] && repository.View().payloads == map[]
    requires Contiguous(ps) && |failures| == |ps|
    modifies repository
    ensures repository.View() == PromoteAll(old(repository.View()), ps, repository.codec)
  {
    ghost var begun, codec := repository.View(), repository.codec;
    for n := 0 to |ps|
      invariant repository.View() == PromoteAll(begun, ps[..n], codec)
    {
      NextPromotes(begun, ps, n, codec);
      PromoteAgain(repository, ps[n], failures[n]);
    }
    assert ps[..|ps|] == ps;
  }

  /**
   * The round trip on the repository itself: promote, over any contexts and with a retry after any failure, then
   * hydrate. A context gets back its snapshots, in order, with their scores. The history has each offered event once,
   * and if no promotion repeats an event, all of them.
   */
  method PromoteThenHydrate(repository: SnapshotRepository, ps: seq<Promotion>, failures: seq<Option<nat>>,
                            ghost c: ContextId)
    returns (r: Result<Runtime, HydrationError>, changes: seq<(ContextId, MembershipChange)>)
    requires repository.View().snapshots == map[] && repository.View().payloads == map[] && repository.history == []
    requires Contiguous(ps) && |failures| == |ps| && forall p :: p in ps ==> Decodes(repository.codec, p)
    modifies repository
    ensures r.Ok? && |HistoryOf(r.value, c)| == |Of(ps, c)|
    ensures forall i :: 0 <= i < |Of(ps, c)| ==> HistoryOf(r.value, c)[i] == AsRestored(Of(ps, c)[i])
    ensures var stored := Marked(Offers(ps), Firsts(Offers(ps)));
            |changes| == |stored| &&
            forall k :: 0 <= k < |stored| ==> changes[k] == (stored[k].context, stored[k].change)
    ensures NoRepeats(ps) ==>
              |changes| == |Offers(ps)| &&
              forall k :: 0 <= k < |changes| ==> changes[k] == (Offers(ps)[k].context, Offers(ps)[k].change)
  {
    ghost var begun, codec := repository.View(), repository.codec;
    PromoteHydrate(begun, ps, codec, c);
    HistoryExact(begun, ps, codec);
    if NoRepeats(ps) {
      NoEventLost(begun, ps, codec);
    }
    PromoteEach(repository, ps, failures);
    HydrateExact(repository.View(), codec);
    r, changes := repository.HydrateRuntime();
  }
}
