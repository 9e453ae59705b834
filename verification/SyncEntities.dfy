/**
 * What runs keep without any discipline on the log: the members are always right, and so is the score of every
 * entity whose own events are disciplined.
 */
module SyncEntities {
  import opened Outcomes
  import opened ChangeLog
  import opened FoldedDelta
  import opened LogDiscipline
  import opened SyncState
  import opened SyncProtocol

  /** The store is right about whether `x` is a member, and about its score if its events are disciplined. */
  ghost predicate RightFor(initial: Membership, log: seq<Event>, k: nat, m: Membership, x: int)
    requires k <= |log|
  {
    && (x in m <==> x in Replay(initial, log[..k]))
    && (DisciplinedFor(log, x) ==> SameAt(m, Replay(initial, log[..k]), x))
  }

  ghost predicate Right(initial: Membership, log: seq<Event>, k: nat, m: Membership)
    requires k <= |log|
  {
    forall x :: RightFor(initial, log, k, m, x)
  }

  /** The published store is right at the first `k` events, and neither watermark passes them. */
  ghost predicate MembersFaithful(initial: Membership, w: World, k: nat) {
    && Numbered(w.log) && Valid(initial, w.log)
    && k <= |w.log|
    && (w.published.Some? ==> Right(initial, w.log, k, w.published.value))
    && Covered(w.durable, k) && Covered(w.memory, k)
    && (w.durable.watermark.Some? || w.memory.watermark.Some? ==> w.published.Some?)
  }

  lemma {:induction false} DisciplinedForPrefix(log: seq<Event>, log': seq<Event>, x: int)
    requires log <= log' && DisciplinedFor(log', x)
    ensures DisciplinedFor(log, x)
  {
    assert forall r :: 0 <= r < |log| ==> log'[r] == log[r];
    forall i: nat, f: nat, k: nat | Readded(log, i, f, k) && log[i].entity == x
      ensures ScoreOf(log[k]) == ScoreOf(log[i])
    {
      assert !TouchedBetween(log', x, i, f);
      assert !RemovedBetween(log', x, i, k);
      assert Readded(log', i, f, k);
    }
  }

  lemma RightStays(initial: Membership, log: seq<Event>, log': seq<Event>, k: nat, m: Membership)
    requires log <= log' && k <= |log| && Right(initial, log, k, m)
    ensures Right(initial, log', k, m)
  {
    PrefixStays(log, log', k);
    forall x ensures RightFor(initial, log', k, m, x) {
      assert RightFor(initial, log, k, m, x);
      if DisciplinedFor(log', x) {
        DisciplinedForPrefix(log, log', x);
      }
    }
  }

  lemma ReplayRight(initial: Membership, log: seq<Event>, k: nat)
    requires k <= |log|
    ensures Right(initial, log, k, Replay(initial, log[..k]))
  {
    forall x ensures RightFor(initial, log, k, Replay(initial, log[..k]), x) {
    }
  }

  /** Applying the events from a boundary before `k` up to `m` takes a store right at `k` to one right at `m`. */
  lemma BatchRight(initial: Membership, log: seq<Event>, from: nat, k: nat, m: nat, store: Membership)
    requires Valid(initial, log) && from <= k <= m <= |log| && Right(initial, log, k, store)
    ensures Right(initial, log, m, ApplyDelta(store, Fold(log[from..m])))
  {
    forall x ensures RightFor(initial, log, m, ApplyDelta(store, Fold(log[from..m])), x) {
      assert RightFor(initial, log, k, store, x);
      BatchOfLogAt(initial, log, from, k, m, store, x);
      if DisciplinedFor(log, x) {
        DisciplinedKeeps(log, from, m, x);
      }
    }
  }

  lemma SyncKeepsMembers(initial: Membership, w: World, w': World, k: nat, m: nat, reached: Reached) returns (k': nat)
    requires MembersFaithful(initial, w, k) && Syncs(w, w', m, reached)
    requires Numbered(w'.log) && Valid(initial, w'.log)
    ensures MembersFaithful(initial, w', k')
    ensures reached == Remembered ==> k' == m && w'.published.Some? && w'.memory.watermark == Some(m)
  {
    var from := w.memory.watermark.value;
    RightStays(initial, w.log, w'.log, k, w.published.value);
    BatchRight(initial, w'.log, from, k, m, w.published.value);
    var batch := w'.log[from..m];
    if batch == [] {
      assert |batch| == m - from;
      k' := k;
    } else if reached == Unpublished {
      k' := k;
    } else {
      k' := m;
      IdsOfSlice(w'.log, from, m);
    }
  }

  lemma BootstrapKeepsMembers(initial: Membership, w: World, w': World, k: nat, reached: Reached) returns (k': nat)
    requires MembersFaithful(initial, w, k) && Bootstraps(initial, w, w', reached)
    requires Numbered(w'.log) && Valid(initial, w'.log)
    ensures MembersFaithful(initial, w', k')
  {
    if reached == Unpublished {
      k' := k;
      if w.published.Some? {
        RightStays(initial, w.log, w'.log, k, w.published.value);
      }
    } else {
      k' := |w'.log|;
      ReplayRight(initial, w'.log, k');
      assert w'.log[..k'] == w'.log;
    }
  }

  lemma StepKeepsMembers(initial: Membership, w: World, w': World, k: nat) returns (k': nat)
    requires MembersFaithful(initial, w, k) && Step(initial, w, w')
    requires Numbered(w'.log) && Valid(initial, w'.log)
    ensures MembersFaithful(initial, w', k')
  {
    if Appends(w, w') || Restarts(w, w') {
      k' := k;
      if w.published.Some? {
        RightStays(initial, w.log, w'.log, k, w.published.value);
      }
    } else if reached :| Bootstraps(initial, w, w', reached) {
      k' := BootstrapKeepsMembers(initial, w, w', k, reached);
    } else {
      var m, reached :| Syncs(w, w', m, reached);
      k' := SyncKeepsMembers(initial, w, w', k, m, reached);
    }
  }

  /**
   * In every interleaving of source changes, bootstraps, syncs, failures at any point and restarts, whatever the
   * log, the published members are those of a prefix of it, each entity with disciplined events has its score of
   * that prefix, and neither watermark passes it.
   */
  lemma {:induction false} RunMembers(initial: Membership, run: seq<World>, i: nat) returns (k: nat)
    requires Run(initial, run) && i < |run|
    requires var log := run[|run| - 1].log; Numbered(log) && Valid(initial, log)
    ensures MembersFaithful(initial, run[i], k)
    decreases i
  {
    var log := run[|run| - 1].log;
    RunAppends(initial, run, i, |run| - 1);
    NumberedPrefix(run[i].log, log);
    ValidSlice(initial, log, 0, |run[i].log|);
    assert log[..|run[i].log|] == run[i].log;
    if i == 0 {
      k := 0;
    } else {
      k := RunMembers(initial, run, i - 1);
      assert Step(initial, run[i - 1], run[i]);
      k := StepKeepsMembers(initial, run[i - 1], run[i], k);
    }
  }

  ghost predicate Tracks(initial: Membership, w: World) {
    exists k :: MembersFaithful(initial, w, k)
  }

  lemma RunTracks(initial: Membership, run: seq<World>)
    requires Run(initial, run)
    requires var log := run[|run| - 1].log; Numbered(log) && Valid(initial, log)
    ensures forall i :: 0 <= i < |run| ==> Tracks(initial, run[i])
  {
    forall i | 0 <= i < |run| ensures Tracks(initial, run[i]) {
      var k := RunMembers(initial, run, i);
    }
  }

  lemma TrackedPublished(initial: Membership, w: World)
    requires Tracks(initial, w) && w.memory.watermark.Some?
    ensures w.published.Some?
  {}

  /** The store has the members wanted, and the scores wanted of entities with disciplined events. */
  ghost predicate AsWanted(log: seq<Event>, got: Membership, wanted: Membership) {
    && got.Keys == wanted.Keys
    && (forall x :: DisciplinedFor(log, x) ==> SameAt(got, wanted, x))
    && (Disciplined(log) ==> got == wanted)
  }

  lemma RightWanted(initial: Membership, log: seq<Event>, k: nat, got: Membership, wanted: Membership)
    requires k <= |log| && Right(initial, log, k, got) && wanted == Replay(initial, log[..k])
    ensures AsWanted(log, got, wanted)
  {
    forall x ensures x in got.Keys <==> x in wanted.Keys {
      assert RightFor(initial, log, k, got, x);
    }
    forall x | DisciplinedFor(log, x) ensures SameAt(got, wanted, x) {
      assert RightFor(initial, log, k, got, x);
    }
    if Disciplined(log) {
      DisciplinedEach(log);
      SameEverywhere(got, wanted);
    }
  }

  /** A completed sync leaves what is wanted of the events it collected: all events, when no change overtook it. */
  lemma TrackedRepairs(initial: Membership, w: World, w': World, m: nat)
    requires Tracks(initial, w) && Syncs(w, w', m, Remembered)
    requires Numbered(w'.log) && Valid(initial, w'.log)
    ensures w'.published.Some? && w'.memory.watermark == Some(m)
    ensures AsWanted(w'.log, w'.published.value, Replay(initial, w'.log[..m]))
    ensures w'.log == w.log ==> w'.log[..m] == w'.log
  {
    var k :| MembersFaithful(initial, w, k);
    var k' := SyncKeepsMembers(initial, w, w', k, m, Remembered);
    RightWanted(initial, w'.log, m, w'.published.value, Replay(initial, w'.log[..m]));
  }
}
