/**
 * The synchronization protocol as a state machine over its visible state, and what every run of it keeps.
 * The methods of the synchronizer are proved to take exactly these steps.
 */
module SyncProtocol {
  import opened Outcomes
  import opened ChangeLog
  import opened FoldedDelta
  import opened LogDiscipline
  import opened Delivery
  import opened SyncState

  /** `kept` says whether progress is kept in a durable repository at all. */
  datatype World = World(
    log: seq<Event>,
    published: Option<Membership>,
    durable: Progress,
    memory: Progress,
    kept: bool)

  /** How far a call got before it ended, was refused or died. */
  datatype Reached = Unpublished | Published | Committed | Remembered

  function Rank(r: Reached): nat {
    match r
    case Unpublished => 0
    case Published => 1
    case Committed => 2
    case Remembered => 3
  }

  /** Publish first, then commit durably, then remember: a call that stops leaves the later parts as they were. */
  function Updated(w: World, log: seq<Event>, content: Membership, watermark: nat, ids: set<nat>, reached: Reached)
    : World
  {
    World(
      log,
      if Rank(reached) >= 1 then Some(content) else w.published,
      if Rank(reached) >= 2 && w.kept then Progress(Some(watermark), w.durable.seen + ids) else w.durable,
      if Rank(reached) >= 3 then Progress(Some(watermark), w.memory.seen + ids) else w.memory,
      w.kept)
  }

  ghost predicate Appends(w: World, w': World) {
    w.log <= w'.log && w' == w.(log := w'.log)
  }

  /** A new process starts from the repository, or from nothing. */
  ghost predicate Restarts(w: World, w': World) {
    w' == w.(memory := w.durable)
  }

  /** A bootstrap whose pages were all served from one log: the one the call leaves behind. */
  ghost predicate Bootstraps(initial: Membership, w: World, w': World, reached: Reached) {
    w.log <= w'.log && w' == Updated(w, w'.log, Replay(initial, w'.log), |w'.log|, {}, reached)
  }

  /** A sync that collected the events up to `m`, at least all that were there when it began. */
  ghost predicate Syncs(w: World, w': World, m: nat, reached: Reached) {
    && w.log <= w'.log && |w.log| <= m <= |w'.log|
    && w.memory.watermark.Some? && w.memory.watermark.value <= |w.log|
    && var batch := w'.log[w.memory.watermark.value..m];
       if batch == [] || reached == Unpublished then Appends(w, w')
       else w.published.Some? &&
            w' == Updated(w, w'.log, ApplyDelta(w.published.value, Fold(batch)), m, Ids(batch), reached)
  }

  /** A batch folded and published as far as `reached`; an empty batch changes nothing. */
  ghost predicate Applied(w: World, w': World, ordered: seq<Event>, reached: Reached) {
    if ordered == [] || reached == Unpublished then w' == w
    else
      && w.published.Some?
      && w' == Updated(w, w.log, ApplyDelta(w.published.value, Fold(ordered)),
                       ordered[|ordered| - 1].watermark, Ids(ordered), reached)
  }

  /** Pulling the log between the watermark and `m`, then applying it, is a sync. */
  lemma AppliedSyncs(w: World, w': World, m: nat, reached: Reached, ordered: seq<Event>)
    requires w.log <= w'.log && |w.log| <= m <= |w'.log| && Numbered(w'.log)
    requires w.memory.watermark.Some? && Covered(w.memory, |w.log|)
    requires ordered == w'.log[w.memory.watermark.value..m]
    requires Applied(w.(log := w'.log), w', ordered, reached)
    ensures Syncs(w, w', m, reached)
    ensures Covered(w'.memory, |w'.log|)
    ensures Covered(w.durable, |w.log|) ==> Covered(w'.durable, |w'.log|)
    ensures reached == Remembered ==> w'.memory.watermark == Some(m)
  {
    assert |ordered| == m - w.memory.watermark.value;
    if ordered != [] {
      assert ordered[|ordered| - 1] == w'.log[m - 1];
    }
    IdsOfSlice(w'.log, w.memory.watermark.value, m);
  }

  /** Publishing what was read, with the source's watermark, keeps the progress covered; a quiet read is a bootstrap. */
  lemma SnapshotBootstraps(initial: Membership, w: World, w': World, content: Membership, reached: Reached)
    requires w.log <= w'.log && Covered(w.memory, |w.log|)
    requires w' == Updated(w.(log := w'.log), w'.log, content, |w'.log|, Ids([]), reached)
    ensures content == Replay(initial, w'.log) ==> Bootstraps(initial, w, w', reached)
    ensures Covered(w'.memory, |w'.log|)
    ensures Covered(w.durable, |w.log|) ==> Covered(w'.durable, |w'.log|)
    ensures reached == Unpublished ==> Appends(w, w')
  {}

  ghost predicate Step(initial: Membership, w: World, w': World) {
    || Appends(w, w')
    || Restarts(w, w')
    || (exists reached :: Bootstraps(initial, w, w', reached))
    || (exists m, reached :: Syncs(w, w', m, reached))
  }

  // ---- The invariant ---------------------------------------------------------------------

  /** Progress never passes the published prefix, and only events at or before the watermark count as seen. */
  ghost predicate Covered(p: Progress, k: nat) {
    && (p.watermark.Some? ==> p.watermark.value <= k)
    && (forall id :: id in p.seen ==> p.watermark.Some? && id <= p.watermark.value)
  }

  ghost predicate Behind(p: Progress, q: Progress) {
    p.watermark.Some? ==> q.watermark.Some? && p.watermark.value <= q.watermark.value
  }

  /** The published store is the replay of the first `k` events. */
  ghost predicate Faithful(initial: Membership, w: World, k: nat) {
    && Numbered(w.log) && Valid(initial, w.log)
    && k <= |w.log|
    && (w.published.Some? ==> w.published.value == Replay(initial, w.log[..k]))
    && Covered(w.durable, k) && Covered(w.memory, k)
    && (w.durable.watermark.Some? || w.memory.watermark.Some? ==> w.published.Some?)
    && (w.kept ==> Behind(w.memory, w.durable))
    && (!w.kept ==> w.durable == NOTHING_YET)
  }

  lemma PrefixStays(log: seq<Event>, log': seq<Event>, k: nat)
    requires log <= log' && k <= |log|
    ensures log'[..k] == log[..k]
  {}

  lemma {:induction false} DisciplinedPrefix(log: seq<Event>, log': seq<Event>)
    requires log <= log' && Disciplined(log')
    ensures Disciplined(log)
  {
    forall j | 0 <= j < |log| && log[j].kind == Added ensures ScoreOf(log[j]) != 0.0 {
      assert log'[j] == log[j];
    }
    forall i: nat, f: nat, k: nat | Readded(log, i, f, k) ensures ScoreOf(log[k]) == ScoreOf(log[i]) {
      var x := log[i].entity;
      assert forall r :: 0 <= r < |log| ==> log'[r] == log[r];
      assert !TouchedBetween(log', x, i, f);
      assert !RemovedBetween(log', x, i, k);
      assert Readded(log', i, f, k);
    }
  }

  lemma IdsOfSlice(log: seq<Event>, w: nat, m: nat)
    requires Numbered(log) && w <= m <= |log|
    ensures forall id :: id in Ids(log[w..m]) ==> w < id <= m
  {}

  /** What a sync publishes is the replay of the events it collected, whatever prefix was published before. */
  lemma SyncPublishes(initial: Membership, w: World, log: seq<Event>, k: nat, m: nat)
    requires Faithful(initial, w, k) && w.published.Some? && w.memory.watermark.Some?
    requires w.log <= log && Numbered(log) && Valid(initial, log) && Disciplined(log)
    requires |w.log| <= m <= |log|
    ensures ApplyDelta(w.published.value, Fold(log[w.memory.watermark.value..m])) == Replay(initial, log[..m])
  {
    var from := w.memory.watermark.value;
    PrefixStays(w.log, log, k);
    DisciplineExact(initial, log);
    assert FaithfulBatch(initial, log, from, k, m);
  }

  lemma SyncKeeps(initial: Membership, w: World, w': World, k: nat, m: nat, reached: Reached) returns (k': nat)
    requires Faithful(initial, w, k) && Syncs(w, w', m, reached)
    requires Numbered(w'.log) && Valid(initial, w'.log) && Disciplined(w'.log)
    ensures Faithful(initial, w', k')
  {
    var from := w.memory.watermark.value;
    if w'.log[from..m] == [] || reached == Unpublished {
      k' := k;
      PrefixStays(w.log, w'.log, k);
    } else {
      k' := m;
      SyncPublishes(initial, w, w'.log, k, m);
      IdsOfSlice(w'.log, from, m);
    }
  }

  lemma BootstrapKeeps(initial: Membership, w: World, w': World, k: nat, reached: Reached) returns (k': nat)
    requires Faithful(initial, w, k) && Bootstraps(initial, w, w', reached)
    requires Numbered(w'.log) && Valid(initial, w'.log)
    ensures Faithful(initial, w', k')
  {
    k' := if reached == Unpublished then k else |w'.log|;
    PrefixStays(w.log, w'.log, k);
    assert w'.log[..|w'.log|] == w'.log;
  }

  /** Every step keeps the invariant, whichever point a call dies at. */
  lemma StepKeeps(initial: Membership, w: World, w': World, k: nat) returns (k': nat)
    requires Faithful(initial, w, k) && Step(initial, w, w')
    requires Numbered(w'.log) && Valid(initial, w'.log) && Disciplined(w'.log)
    ensures Faithful(initial, w', k')
  {
    if Appends(w, w') || Restarts(w, w') {
      k' := k;
      PrefixStays(w.log, w'.log, k);
    } else if exists reached :: Bootstraps(initial, w, w', reached) {
      var reached :| Bootstraps(initial, w, w', reached);
      k' := BootstrapKeeps(initial, w, w', k, reached);
    } else {
      var m, reached :| Syncs(w, w', m, reached);
      k' := SyncKeeps(initial, w, w', k, m, reached);
    }
  }

  // ---- Whole runs ------------------------------------------------------------------------

  ghost predicate Fresh(w: World) {
    w.published == None && w.durable == NOTHING_YET && w.memory == NOTHING_YET
  }

  ghost predicate Run(initial: Membership, run: seq<World>) {
    && run != [] && Fresh(run[0])
    && forall i :: 0 <= i < |run| - 1 ==> Step(initial, run[i], run[i + 1])
  }

  lemma {:induction false} RunAppends(initial: Membership, run: seq<World>, i: nat, j: nat)
    requires Run(initial, run) && i <= j < |run|
    ensures run[i].log <= run[j].log
    decreases j - i
  {
    if i < j {
      RunAppends(initial, run, i, j - 1);
      assert Step(initial, run[j - 1], run[j]);
    }
  }

  /** One log is numbered, legal and disciplined, and so is every earlier one. */
  lemma LogPrefix(initial: Membership, log: seq<Event>, log': seq<Event>)
    requires log <= log' && Numbered(log') && Valid(initial, log') && Disciplined(log')
    ensures Numbered(log) && Valid(initial, log) && Disciplined(log)
  {
    NumberedPrefix(log, log');
    DisciplinedPrefix(log, log');
    ValidSlice(initial, log', 0, |log|);
    assert log'[..|log|] == log;
  }

  /**
   * Run refinement with crash recovery. In every interleaving of source changes, bootstraps, syncs, failures
   * at any point and restarts, the published store is the replay of a prefix of the log, and neither the
   * durable nor the remembered watermark passes that prefix.
   */
  lemma {:induction false} RunFaithful(initial: Membership, run: seq<World>, i: nat) returns (k: nat)
    requires Run(initial, run) && i < |run|
    requires var log := run[|run| - 1].log; Numbered(log) && Valid(initial, log) && Disciplined(log)
    ensures Faithful(initial, run[i], k)
    decreases i
  {
    var log := run[|run| - 1].log;
    RunAppends(initial, run, i, |run| - 1);
    LogPrefix(initial, run[i].log, log);
    if i == 0 {
      k := 0;
    } else {
      k := RunFaithful(initial, run, i - 1);
      assert Step(initial, run[i - 1], run[i]);
      k := StepKeeps(initial, run[i - 1], run[i], k);
    }
  }

  /** A sync that found nothing proves the store complete: all that was there is published. */
  lemma IdleComplete(initial: Membership, w: World, w': World, k: nat, m: nat)
    requires Faithful(initial, w, k) && Syncs(w, w', m, Remembered) && w.memory.watermark == Some(m)
    ensures k == m == |w.log|
    ensures w'.memory.watermark == Some(m) && w'.published == Some(Replay(initial, w'.log[..m]))
  {
    PrefixStays(w.log, w'.log, k);
  }

  /**
   * After any history of failures, one completed sync repairs everything: the store is the replay of what
   * the sync collected, and a sync that no change overtook leaves the clean rebuild.
   */
  lemma SyncRepairs(initial: Membership, w: World, w': World, k: nat, m: nat)
    requires Faithful(initial, w, k) && Syncs(w, w', m, Remembered)
    requires Numbered(w'.log) && Valid(initial, w'.log) && Disciplined(w'.log)
    ensures w'.memory.watermark == Some(m)
    ensures w'.published == Some(Replay(initial, w'.log[..m]))
    ensures w'.log == w.log ==> w'.published == Some(Replay(initial, w'.log))
    ensures w'.kept && w.memory == w.durable ==> w'.durable == w'.memory
  {
    var batch := w'.log[w.memory.watermark.value..m];
    assert |batch| == m - w.memory.watermark.value;
    if batch == [] {
      IdleComplete(initial, w, w', k, m);
    } else {
      SyncPublishes(initial, w, w'.log, k, m);
    }
    assert w'.log[..|w'.log|] == w'.log;
  }

  /**
   * The goal of incremental synchronization. After any history that refines the log, a completed sync leaves what
   * a clean rebuild would: any completed bootstrap, of an empty store or another, from a source that holds just
   * the events the sync collected. Members, scores and watermark are the same.
   */
  lemma CleanRebuild(initial: Membership, w: World, w': World, m: nat, start: World, rebuilt: World)
    requires Refines(initial, w) && Syncs(w, w', m, Remembered)
    requires Numbered(w'.log) && Valid(initial, w'.log) && Disciplined(w'.log)
    requires Bootstraps(initial, start, rebuilt, Remembered) && rebuilt.log == w'.log[..m]
    ensures w'.published == rebuilt.published && w'.published.Some?
    ensures w'.memory.watermark == rebuilt.memory.watermark
  {
    var k :| Faithful(initial, w, k);
    SyncRepairs(initial, w, w', k, m);
  }

  /**
   * A sync that gets as far as the repository commits a watermark strictly past the remembered one, one that
   * completes remembers it too, and no seen id is forgotten, whatever the call dies of.
   */
  lemma WatermarkAdvances(w: World, w': World, m: nat, reached: Reached)
    requires Syncs(w, w', m, reached)
    ensures w'.durable != w.durable ==> w.memory.watermark.value < m && w'.durable.watermark == Some(m)
    ensures w'.memory != w.memory ==> w.memory.watermark.value < m && w'.memory.watermark == Some(m)
    ensures w.memory.seen <= w'.memory.seen && w.durable.seen <= w'.durable.seen
  {}

  /**
   * What a completed sync adds to the ids seen: those of the log between the two watermarks, and no other, in memory
   * and, if progress is kept, in the repository. A completed bootstrap adds none and moves both watermarks to the end.
   */
  lemma SeenGrows(initial: Membership, w: World, w': World, m: nat, id: nat)
    requires Numbered(w'.log)
    ensures Syncs(w, w', m, Remembered) ==>
              && (id in w'.memory.seen <==> id in w.memory.seen || w.memory.watermark.value < id <= m)
              && (w.kept && w.memory.watermark.value < m ==>
                    (id in w'.durable.seen <==> id in w.durable.seen || w.memory.watermark.value < id <= m))
    ensures Bootstraps(initial, w, w', Remembered) ==>
              && (id in w'.memory.seen <==> id in w.memory.seen)
              && (id in w'.durable.seen <==> id in w.durable.seen)
              && w'.memory.watermark == Some(|w'.log|) && (w.kept ==> w'.durable.watermark == Some(|w'.log|))
  {
    if Syncs(w, w', m, Remembered) && w.memory.watermark.value < id <= m {
      assert w'.log[w.memory.watermark.value..m][id - w.memory.watermark.value - 1] == w'.log[id - 1];
    }
    if Syncs(w, w', m, Remembered) {
      IdsOfSlice(w'.log, w.memory.watermark.value, m);
    }
  }

  /** Whatever a step does or dies of, durable progress never goes back and stays covered by the log. */
  lemma DurableAdvances(initial: Membership, w: World, w': World)
    requires Step(initial, w, w') && Numbered(w'.log)
    requires Covered(w.memory, |w.log|) && Covered(w.durable, |w.log|)
    ensures Covered(w'.memory, |w'.log|) && Covered(w'.durable, |w'.log|)
    ensures Behind(w.durable, w'.durable) && w.durable.seen <= w'.durable.seen
  {
    if m, reached :| Syncs(w, w', m, reached) {
      IdsOfSlice(w'.log, w.memory.watermark.value, m);
    }
  }

  lemma {:induction false} RunCovered(initial: Membership, run: seq<World>, i: nat)
    requires Run(initial, run) && i < |run| && Numbered(run[|run| - 1].log)
    ensures Covered(run[i].memory, |run[i].log|) && Covered(run[i].durable, |run[i].log|)
  {
    if i > 0 {
      RunCovered(initial, run, i - 1);
      RunAppends(initial, run, i, |run| - 1);
      NumberedPrefix(run[i].log, run[|run| - 1].log);
      assert Step(initial, run[i - 1], run[i]);
      DurableAdvances(initial, run[i - 1], run[i]);
    }
  }

  /** Over every run, disciplined or not, the durable watermark never goes back and no durable id is forgotten. */
  lemma {:induction false} RunAdvances(initial: Membership, run: seq<World>, i: nat, j: nat)
    requires Run(initial, run) && i <= j < |run| && Numbered(run[|run| - 1].log)
    ensures Behind(run[i].durable, run[j].durable) && run[i].durable.seen <= run[j].durable.seen
    decreases j - i
  {
    if i < j {
      RunAdvances(initial, run, i, j - 1);
      RunCovered(initial, run, j - 1);
      RunAppends(initial, run, j, |run| - 1);
      NumberedPrefix(run[j].log, run[|run| - 1].log);
      assert Step(initial, run[j - 1], run[j]);
      DurableAdvances(initial, run[j - 1], run[j]);
    }
  }

  /** Memory and repository agree after every step that no interruption cut between the two. */
  lemma AgreementKept(initial: Membership, w: World, w': World)
    requires w.kept && w.memory == w.durable && Step(initial, w, w') && w'.memory != w'.durable
    ensures Bootstraps(initial, w, w', Committed) || exists m :: Syncs(w, w', m, Committed)
  {}

  ghost predicate Refines(initial: Membership, w: World) {
    exists k :: Faithful(initial, w, k)
  }

  /** After a completed sync that no change overtook, a store that refined the log is the replay of all of it. */
  lemma RefinedRepairs(initial: Membership, w: World, w': World, m: nat)
    requires Refines(initial, w) && Syncs(w, w', m, Remembered) && w'.log == w.log
    requires Numbered(w'.log) && Valid(initial, w'.log) && Disciplined(w'.log)
    ensures w'.published == Some(Replay(initial, w'.log)) && w'.memory.watermark == Some(|w'.log|)
  {
    var k :| Faithful(initial, w, k);
    SyncRepairs(initial, w, w', k, m);
  }

  lemma UnfaithfulBatch(initial: Membership, log: seq<Event>) returns (from: nat, m: nat)
    requires Valid(initial, log) && !Disciplined(log)
    ensures from < m <= |log|
    ensures !FaithfulBatch(initial, log, from, from, m)
  {
    DisciplineExact(initial, log);
    var k: nat;
    from, k, m :| from <= k <= m <= |log| && !FaithfulBatch(initial, log, from, k, m);
    BatchOfLog(initial, log, from, k, m);
    BatchOfLog(initial, log, from, from, m);
    if from == m {
      EmptyFoldable(log[from..m]);
    }
  }

  /** The shortest of runs: bootstrap at `from`, changes up to `m`, sync. */
  lemma ShortRun(initial: Membership, log: seq<Event>, from: nat, m: nat) returns (run: seq<World>)
    requires Numbered(log) && from < m <= |log|
    ensures Run(initial, run) && |run| == 4
    ensures run[3].log == log[..m] && run[3].memory.watermark == Some(m)
    ensures run[3].published == Some(ApplyDelta(Replay(initial, log[..from]), Fold(log[from..m])))
  {
    var start := World(log[..from], None, NOTHING_YET, NOTHING_YET, false);
    var booted := Updated(start, log[..from], Replay(initial, log[..from]), from, {}, Remembered);
    var grown := booted.(log := log[..m]);
    var batch := log[..m][from..m];
    assert batch == log[from..m] && |batch| == m - from;
    var synced := Updated(grown, log[..m], ApplyDelta(grown.published.value, Fold(batch)), m, Ids(batch), Remembered);
    assert Bootstraps(initial, start, booted, Remembered);
    assert Appends(booted, grown) by { assert log[..from] <= log[..m]; }
    assert Syncs(grown, synced, m, Remembered);
    run := [start, booted, grown, synced];
  }

  /**
   * The discipline cannot be weakened: any other log has a run that ends with a completed sync of all there is,
   * and a store that differs from the clean rebuild.
   */
  lemma DisciplineNecessary(initial: Membership, log: seq<Event>) returns (run: seq<World>)
    requires Numbered(log) && Valid(initial, log) && !Disciplined(log)
    ensures Run(initial, run) && run[|run| - 1].log <= log
    ensures !Refines(initial, run[|run| - 1])
    ensures run[|run| - 1].published != Some(Replay(initial, run[|run| - 1].log))
    ensures run[|run| - 1].memory.watermark == Some(|run[|run| - 1].log|)
  {
    var from, m := UnfaithfulBatch(initial, log);
    run := ShortRun(initial, log, from, m);
    assert log[..m][..m] == log[..m];
    assert forall k :: Faithful(initial, run[3], k) ==> k == m;
  }

  lemma EmptyFoldable(es: seq<Event>)
    requires es == []
    ensures Foldable(es)
  {}
}
