/** The source logs that survive every way of cutting them into synchronized batches. */
module LogDiscipline {
  import opened Outcomes
  import opened ChangeLog
  import opened FoldedDelta

  predicate RemovedBetween(log: seq<Event>, x: int, i: nat, k: nat)
    requires k < |log|
  {
    exists r :: i < r <= k && log[r].entity == x && log[r].kind == Removed
  }

  predicate TouchedBetween(log: seq<Event>, x: int, i: nat, f: nat)
    requires f < |log|
  {
    exists r :: i < r < f && log[r].entity == x
  }

  /** Event `f` re-adds the member that event `i` re-scored, and `k` is a later event of that same stay. */
  predicate Readded(log: seq<Event>, i: nat, f: nat, k: nat) {
    && i < f <= k < |log|
    && log[i].entity == log[f].entity == log[k].entity
    && log[i].kind == ScoreChanged && log[f].kind == Added
    && !TouchedBetween(log, log[i].entity, i, f)
    && !RemovedBetween(log, log[i].entity, i, k)
  }

  /**
   * No addition with score zero, and a member whose score changed is not re-added before it is removed,
   * unless its score never moves again during that stay.
   */
  ghost predicate Disciplined(log: seq<Event>) {
    && (forall j :: 0 <= j < |log| && log[j].kind == Added ==> ScoreOf(log[j]) != 0.0)
    && (forall i: nat, f: nat, k: nat :: Readded(log, i, f, k) ==> ScoreOf(log[k]) == ScoreOf(log[i]))
  }

  /** The discipline for one entity. */
  ghost predicate DisciplinedFor(log: seq<Event>, x: int) {
    && (forall j :: 0 <= j < |log| && log[j].entity == x && log[j].kind == Added ==> ScoreOf(log[j]) != 0.0)
    && (forall i: nat, f: nat, k: nat :: Readded(log, i, f, k) && log[i].entity == x ==>
          ScoreOf(log[k]) == ScoreOf(log[i]))
  }

  lemma DisciplinedEach(log: seq<Event>)
    ensures Disciplined(log) <==> forall x :: DisciplinedFor(log, x)
  {
    if forall x :: DisciplinedFor(log, x) {
      forall j | 0 <= j < |log| && log[j].kind == Added ensures ScoreOf(log[j]) != 0.0 {
        assert DisciplinedFor(log, log[j].entity);
      }
      forall i: nat, f: nat, k: nat | Readded(log, i, f, k) ensures ScoreOf(log[k]) == ScoreOf(log[i]) {
        assert DisciplinedFor(log, log[i].entity);
      }
    }
  }

  ghost predicate FaithfulBatch(base: Membership, log: seq<Event>, w: nat, k: nat, n: nat)
    requires w <= k <= n <= |log|
  {
    ApplyDelta(Replay(base, log[..k]), Fold(log[w..n])) == Replay(base, log[..n])
  }

  /** Whatever batch (w, n] is folded and whichever prefix k in between the store holds, the result is prefix n. */
  ghost predicate EveryBatchFaithful(base: Membership, log: seq<Event>) {
    forall w: nat, k: nat, n: nat | w <= k <= n <= |log| :: FaithfulBatch(base, log, w, k, n)
  }

  lemma BatchOfLog(base: Membership, log: seq<Event>, w: nat, k: nat, n: nat)
    requires Valid(base, log)
    requires w <= k <= n <= |log|
    ensures FaithfulBatch(base, log, w, k, n) <==> Foldable(log[w..n])
  {
    var from, batch := Replay(base, log[..w]), log[w..n];
    assert Replay(from, batch[..k - w]) == Replay(base, log[..k]) by {
      ValidSlice(base, log, w, k);
      assert batch[..k - w] == log[w..k];
    }
    ValidSlice(base, log, w, n);
    BatchExact(from, batch, k - w);
  }

  lemma {:induction false} TailMember(es: seq<Event>, x: int, p: nat)
    requires p < |Tail(es, x)|
    ensures Tail(es, x)[p] in es
  {
    var init, e := es[..|es| - 1], es[|es| - 1];
    if p < |Tail(init, x)| && !(e.entity == x && e.kind == Removed) {
      TailMember(init, x, p);
    }
  }

  /** The last event of a tail is the last event of its entity in the batch. */
  lemma {:induction false} LastTouch(es: seq<Event>, x: int) returns (i: nat)
    requires Tail(es, x) != []
    ensures i < |es| && es[i] == Tail(es, x)[|Tail(es, x)| - 1] && es[i].entity == x
    ensures forall r :: i < r < |es| ==> es[r].entity != x
  {
    i := |es| - 1;
    if es[i].entity != x {
      i := LastTouch(es[..i], x);
    }
  }

  /** When a score change precedes the first addition of a tail, the batch shows a re-added member. */
  lemma {:induction false} StickyWitness(es: seq<Event>, x: int) returns (i: nat, f: nat)
    requires 0 < FirstAdded(Tail(es, x)) < |Tail(es, x)|
    ensures var t := Tail(es, x);
            && i < f < |es|
            && es[i] == t[FirstAdded(t) - 1] && es[i].entity == es[f].entity == x && es[f].kind == Added
            && (forall r :: i < r < f ==> es[r].entity != x)
            && (forall r :: i < r < |es| ==> !(es[r].entity == x && es[r].kind == Removed))
  {
    var init, e := es[..|es| - 1], es[|es| - 1];
    var t := Tail(init, x);
    if e.entity != x {
      i, f := StickyWitness(init, x);
    } else {
      assert Tail(es, x) == t + [e];
      FirstAddedAppend(t, e);
      if FirstAdded(t) < |t| {
        i, f := StickyWitness(init, x);
        assert (t + [e])[FirstAdded(t) - 1] == t[FirstAdded(t) - 1];
      } else {
        i := LastTouch(init, x);
        f := |es| - 1;
      }
    }
  }

  lemma DisciplinedSticky(log: seq<Event>, w: nat, n: nat, x: int)
    requires w <= n <= |log|
    requires DisciplinedFor(log, x)
    requires 0 < FirstAdded(Tail(log[w..n], x)) < |Tail(log[w..n], x)|
    ensures KeepsScore(Tail(log[w..n], x))
  {
    var es := log[w..n];
    TailEvents(es, x);
    var i, f := StickyWitness(es, x);
    var k := LastTouch(es, x);
    var t := Tail(es, x);
    assert es[i].kind == ScoreChanged;
    assert f <= k;
    assert !TouchedBetween(log, x, w + i, w + f) by {
      forall r | w + i < r < w + f ensures log[r].entity != x { assert log[r] == es[r - w]; }
    }
    assert !RemovedBetween(log, x, w + i, w + k) by {
      forall r | w + i < r <= w + k ensures !(log[r].entity == x && log[r].kind == Removed) {
        assert log[r] == es[r - w];
      }
    }
    assert Readded(log, w + i, w + f, w + k);
  }

  /** In every batch of the log, the fold keeps the score of an entity with disciplined events. */
  lemma DisciplinedKeeps(log: seq<Event>, w: nat, n: nat, x: int)
    requires w <= n <= |log|
    requires DisciplinedFor(log, x)
    ensures KeepsScore(Tail(log[w..n], x))
  {
    var es := log[w..n];
    var t := Tail(es, x);
    var a := FirstAdded(t);
    if 0 < a < |t| {
      DisciplinedSticky(log, w, n, x);
    } else if a == 0 && t != [] {
      TailEvents(es, x);
      TailMember(es, x, |t| - 1);
      var j :| 0 <= j < |es| && es[j] == t[|t| - 1];
      assert log[w + j] == es[j];
    }
  }

  lemma DisciplinedFoldable(log: seq<Event>, w: nat, n: nat)
    requires w <= n <= |log|
    requires Disciplined(log)
    ensures Foldable(log[w..n])
  {
    DisciplinedEach(log);
    forall x ensures KeepsScore(Tail(log[w..n], x)) {
      DisciplinedKeeps(log, w, n, x);
    }
  }

  /** A tail that opens with a score change, alone until the addition that follows it. */
  predicate OpensWith(t: seq<Event>, first: Event, readded: bool) {
    && t != [] && t[0] == first
    && if readded then FirstAdded(t) == 1 < |t| else t == [first]
  }

  lemma OpensGrows(t: seq<Event>, first: Event, readded: bool, e: Event)
    requires OpensWith(t, first, readded) && first.kind == ScoreChanged && (readded || e.kind == Added)
    ensures OpensWith(t + [e], first, true)
  {
    FirstAddedAppend(t, e);
  }

  /** From a re-scored member that is re-added, the tail keeps opening with that score change. */
  lemma {:induction false} ReaddedTail(log: seq<Event>, i: nat, f: nat, k: nat, m: nat)
    requires Readded(log, i, f, k)
    requires i < m <= k + 1
    ensures OpensWith(Tail(log[i..m], log[i].entity), log[i], m > f)
    ensures log[m - 1].entity == log[i].entity ==>
              var t := Tail(log[i..m], log[i].entity); t[|t| - 1] == log[m - 1]
  {
    var es, x := log[i..m], log[i].entity;
    var init, e := es[..|es| - 1], es[|es| - 1];
    assert init == log[i..m - 1] && e == log[m - 1];
    if m == i + 1 {
      assert init == [];
      assert Tail(init, x) == [];
    } else {
      ReaddedTail(log, i, f, k, m - 1);
      if e.entity == x {
        assert e.kind != Removed;
        assert m - 1 <= f ==> m - 1 == f;
        OpensGrows(Tail(init, x), log[i], m - 1 > f, e);
      }
    }
  }

  lemma SingleTail(es: seq<Event>, x: int)
    requires |es| == 1 && es[0].entity == x && es[0].kind == Added
    ensures Tail(es, x) == es && FirstAdded(es) == 0
  {
    assert es[..0] == [];
    assert Tail(es[..0], x) == [] && Tail(es, x) == [] + [es[0]];
  }

  ghost predicate KeptInAll(log: seq<Event>, x: int) {
    forall w: nat, n: nat | w <= n <= |log| :: KeepsScore(Tail(log[w..n], x))
  }

  lemma KeptDisciplined(log: seq<Event>, x: int)
    requires KeptInAll(log, x)
    ensures DisciplinedFor(log, x)
  {
    forall j: nat | j < |log| && log[j].entity == x && log[j].kind == Added ensures ScoreOf(log[j]) != 0.0 {
      SingleTail(log[j..j + 1], x);
      assert KeepsScore(Tail(log[j..j + 1], x));
    }
    forall i: nat, f: nat, k: nat | Readded(log, i, f, k) && log[i].entity == x
      ensures ScoreOf(log[k]) == ScoreOf(log[i])
    {
      ReaddedTail(log, i, f, k, k + 1);
      assert KeepsScore(Tail(log[i..k + 1], x));
    }
  }

  /** Whatever batch (w, n] is folded over whichever prefix k in between, the entity comes out as in prefix n. */
  ghost predicate EveryBatchFaithfulFor(base: Membership, log: seq<Event>, x: int) {
    forall w: nat, k: nat, n: nat | w <= k <= n <= |log| ::
      SameAt(ApplyDelta(Replay(base, log[..k]), Fold(log[w..n])), Replay(base, log[..n]), x)
  }

  lemma BatchOfLogAt(base: Membership, log: seq<Event>, w: nat, k: nat, n: nat, m: Membership, x: int)
    requires Valid(base, log)
    requires w <= k <= n <= |log|
    ensures SameAt(m, Replay(base, log[..k]), x) ==>
              (SameAt(ApplyDelta(m, Fold(log[w..n])), Replay(base, log[..n]), x) <==> KeepsScore(Tail(log[w..n], x)))
    ensures (x in m <==> x in Replay(base, log[..k])) ==>
              (x in ApplyDelta(m, Fold(log[w..n])) <==> x in Replay(base, log[..n]))
  {
    var from, batch := Replay(base, log[..w]), log[w..n];
    assert Replay(from, batch[..k - w]) == Replay(base, log[..k]) by {
      ValidSlice(base, log, w, k);
      assert batch[..k - w] == log[w..k];
    }
    ValidSlice(base, log, w, n);
    if SameAt(m, Replay(base, log[..k]), x) {
      BatchExactAt(from, batch, k - w, m, x);
    }
    if x in m <==> x in Replay(base, log[..k]) {
      BatchMembersAt(from, batch, k - w, m, x);
    }
  }

  /** The discipline is exact for each entity on its own, whatever happens to the others. */
  lemma DisciplineExactFor(base: Membership, log: seq<Event>, x: int)
    requires Valid(base, log)
    ensures EveryBatchFaithfulFor(base, log, x) <==> DisciplinedFor(log, x)
  {
    if DisciplinedFor(log, x) {
      forall w: nat, k: nat, n: nat | w <= k <= n <= |log|
        ensures SameAt(ApplyDelta(Replay(base, log[..k]), Fold(log[w..n])), Replay(base, log[..n]), x)
      {
        DisciplinedKeeps(log, w, n, x);
        BatchOfLogAt(base, log, w, k, n, Replay(base, log[..k]), x);
      }
    }
    if EveryBatchFaithfulFor(base, log, x) {
      forall w: nat, n: nat | w <= n <= |log| ensures KeepsScore(Tail(log[w..n], x)) {
        BatchOfLogAt(base, log, w, w, n, Replay(base, log[..w]), x);
      }
      KeptDisciplined(log, x);
    }
  }

  /** The discipline is exact: it holds if and only if every batch of the log can be synchronized faithfully. */
  lemma DisciplineExact(base: Membership, log: seq<Event>)
    requires Valid(base, log)
    ensures EveryBatchFaithful(base, log) <==> Disciplined(log)
  {
    if Disciplined(log) {
      forall w: nat, k: nat, n: nat | w <= k <= n <= |log| ensures FaithfulBatch(base, log, w, k, n) {
        DisciplinedFoldable(log, w, n);
        BatchOfLog(base, log, w, k, n);
      }
    }
    if EveryBatchFaithful(base, log) {
      forall x ensures DisciplinedFor(log, x) {
        forall w: nat, n: nat | w <= n <= |log| ensures KeepsScore(Tail(log[w..n], x)) {
          assert FaithfulBatch(base, log, w, w, n);
          BatchOfLog(base, log, w, w, n);
        }
        KeptDisciplined(log, x);
      }
      DisciplinedEach(log);
    }
  }

  /** In a disciplined log one delta for both halves, two deltas in turn, and event by event all agree. */
  lemma DisciplinedComposes(m: Membership, a: seq<Event>, b: seq<Event>)
    requires Valid(m, a + b) && Disciplined(a + b)
    ensures ApplyDelta(m, Fold(a + b)) == ApplyDelta(ApplyDelta(m, Fold(a)), Fold(b)) == Replay(m, a + b)
  {
    var log := a + b;
    assert log[..0] == [] && log[..|log|] == log && log[..|a|] == a;
    assert log[0..|log|] == log && log[0..|a|] == a && log[|a|..|log|] == b;
    DisciplineExact(m, log);
    assert FaithfulBatch(m, log, 0, 0, |log|);
    assert FaithfulBatch(m, log, 0, 0, |a|);
    assert FaithfulBatch(m, log, |a|, |a|, |log|);
  }

  /** A source can emit both bad logs: an addition with score zero, and a re-scored member added again. */
  lemma UndisciplinedLogs()
    ensures var zero := [Event(1, 7, Added, Some(0.0), 1)];
            Valid(map[], zero) && ApplyDelta(map[], Fold(zero)) == map[7 := 1.0] != Replay(map[], zero)
    ensures var again := [Event(1, 7, ScoreChanged, Some(0.25), 1), Event(2, 7, Added, Some(0.5), 2)];
            && Valid(map[7 := 0.75], again)
            && ApplyDelta(map[7 := 0.75], Fold(again)) == map[7 := 0.25] != Replay(map[7 := 0.75], again)
  {
    var zero := [Event(1, 7, Added, Some(0.0), 1)];
    assert zero[..0] == [];
    var again := [Event(1, 7, ScoreChanged, Some(0.25), 1), Event(2, 7, Added, Some(0.5), 2)];
    assert again[..1] == [again[0]] && again[..1][..0] == [];
    assert Replay(map[7 := 0.75], again[..1]) == map[7 := 0.25];
    assert Replay(map[7 := 0.75], again) == map[7 := 0.5];
    assert map[7 := 0.5][7] != map[7 := 0.25][7];
    assert Replay(map[], zero) == map[7 := 0.0];
    assert map[7 := 1.0][7] != map[7 := 0.0][7];
  }
}
